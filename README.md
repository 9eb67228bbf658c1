# Azure cost tracker: report building

This project models the part of the Azure cost tracker that turns the Azure
Consumption API's usage-details response into text. The program reads the
response's `value` array and builds two things from it: the body of the cost
report email, and a table written to the console. The fetch step then picks
between that body and a fixed error marker, based on the HTTP status.

The usage records are modelled as already-parsed JSON:

- `value` is an `Option<seq<Item>>`. `None` means the member is absent.
- Each item's `properties` object is optional.
- Inside `properties`, `usageStart` and `pretaxCost` are optional strings.

An item is valid when both strings are present. Its date is the part of
`usageStart` before the first `'T'`, or the whole text when there is no `'T'`.
Its cost is `pretaxCost`, kept verbatim. The line terminator that
`AppendLine` writes is the parameter `eol`.

Modules:

- `Wrappers` defines the `Option` type.
- `UsageRecords` holds the item types and the per-item date/cost extraction.
- `Report` holds the pure specification of the email body and the console
  table, plus the lemmas about them.
- `Program` holds the methods that build the body and the table with loops,
  as the program does. Each method is proved equal to its specification
  function. It also holds the fetch step's success/error choice.

The model follows the code as written, including where it is narrower than a
full cost reporter would be:

- The code fetches one page; there is no pagination.
- The code keeps no count of skipped records.
- On the console, the code writes a notice for each invalid item instead of
  dropping it.

## Model

| member | source | states |
|---|---|---|
| UsageRecords.DatePart | Program.cs:149 | The date is the prefix of `usageStart` that holds no 'T' and is followed by a 'T' or by the end of the text |
| UsageRecords.DatePartUnique | Program.cs:149 | Only one prefix fits that description, so `Split('T')[0]` is fully pinned down |
| UsageRecords.EntryOf | Program.cs:149-152 | An item yields an entry exactly when both `usageStart` and `pretaxCost` are present; the cost is kept verbatim and the date is the part before the first 'T' |
| UsageRecords.EmptyDateIsPresent | Program.cs:149-152 | A `usageStart` that is empty or starts with 'T' gives an empty date, and the item still counts as valid |
| Report.ValidIndices | Program.cs:147-152 | The valid items' positions: increasing, in range, and including every valid item |
| Report.EmailLinesFollowValidItems | Program.cs:147-155 | The email has one line per valid item, and line k is `date\tcost` of the k-th valid item, so input order is preserved |
| Report.AllInvalidGivesEmptyBody | Program.cs:142-158 | A non-empty array with no valid item gives the empty body, not "No cost data found." |
| Report.EmailBodyLineCount | Program.cs:147-158 | With a terminator holding a character once (such as '\n' in "\n" or "\r\n") that no field and not the tab contains, the body holds exactly one such character per valid item |
| Report.JoinLinesCount | Program.cs:154 | Appending lines with a terminator that holds a given character once, the lines themselves being free of it, leaves exactly one such character per line |
| Report.EntryLineIsNotInvalidData | Program.cs:124-131 | A `date\tcost` row can never equal the invalid-data notice |
| Report.ConsoleRowsPerItem | Program.cs:118-131 | The console has exactly one row per item, and row i belongs to item i |
| Report.ConsoleRowsAgreeWithEmail | Program.cs:121-126 | Dropping the invalid-data notices from the console rows leaves exactly the email's lines, in the same order |
| Report.ConsoleAgreesWithEmail | Program.cs:109-154 | The console starts with the two header lines. After them comes either the email's own no-data sentence, or rows that, without the notices, join to the email body |
| Report.FetchErrorIsNotAReport | Program.cs:84-101 | "Error fetching cost data." differs from every body that a successful fetch can produce |
| Program.FormatCostData | Program.cs:138-159 | The loop over the items builds exactly the specified email body: "No cost data found." for a missing or empty array, otherwise the joined valid lines |
| Program.DisplayCosts | Program.cs:107-133 | The loop builds exactly the specified console table: the header, then the no-data sentence or one row per item |
| Program.GetDailyCost | Program.cs:84-101 | On a 2xx status the result is the formatted body and the console table; on any other status the result is "Error fetching cost data.", and the console shows the status and the error text |

## Left out

- Interactive token acquisition (`GetAccessTokenAsync`). It is a login flow against an external identity provider and needs a person at a browser.
- The HTTP GET and the reading of the response content. `GetDailyCost` takes the status code, the parsed `value` array, the status text and the error content as parameters.
- JSON parsing. Field texts are given strings. The model does not cover how the JSON library prints a token: a `usageStart` parsed as a date prints in culture-dependent form. An explicit JSON `null` for `usageStart` or `pretaxCost` prints as an empty string rather than counting as absent; the model has no such case. A JSON `null` or any other non-object `properties` (and likewise a non-object item) makes the indexing at Program.cs:121/149 throw; the exception ends the fetch step, `Main` prints it and no email is sent. The model's `Item` cannot represent this, so that aborted run is left out. A non-array `value` is left out as well. A JSON `null` `value` has no values, so the program treats it like a missing one ("No cost data found."), which is what the model's `None` gives.
- `Environment.NewLine`. It is platform-dependent, so the line terminator is the parameter `eol`.
- Sending the email (`SendEmailAsync`). SMTP transport, credentials, the completion event handler and the trace log are network and library plumbing.
- `Main`'s sequencing and its catch-all exception message.
- Console output is modelled as the returned sequence of lines, not as writes to a shared stream.
