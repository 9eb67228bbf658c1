/**
  The steps of the program that turn the usage-details response into text:
  the email body builder, the console table printer and the fetch step's
  success/error choice. The HTTP exchange itself is outside the model: the
  fetch step receives the status code, the parsed `value` array and the raw
  error text as parameters.
 */
module Program {

  import opened Wrappers
  import opened UsageRecords
  import opened Report

  /** A status code in the 2xx range counts as success. */
  predicate IsSuccessStatusCode(statusCode: int)
  {
    200 <= statusCode <= 299
  }

  /** Builds the email body by appending one terminated line per valid item. */
  method FormatCostData(value: Option<seq<Item>>, eol: string) returns (body: string)
    ensures body == EmailBody(value, eol)
  {
    if !HasValues(value) {
      return NoCostData;
    }
    var items := value.value;
    var formatted := "";
    for i := 0 to |items|
      invariant formatted == JoinLines(EmailLines(items[..i]), eol)
    {
      ghost var done := EmailLines(items[..i]);
      assert items[..i + 1][..i] == items[..i];
      var entry := EntryOf(items[i]);
      if entry.Some? {
        formatted := formatted + EntryLine(entry.value) + eol;
        ghost var line := EntryLine(entry.value);
        assert EmailLines(items[..i + 1]) == done + [line];
        assert JoinLines(done + [line], eol) == JoinLines(done, eol) + line + eol;
      } else {
        assert EmailLines(items[..i + 1]) == done;
      }
    }
    assert items[..|items|] == items;
    body := formatted;
  }

  /** Produces the console table, one written line after another. */
  method DisplayCosts(value: Option<seq<Item>>) returns (lines: seq<string>)
    ensures lines == ConsoleLines(value)
  {
    lines := [HeaderLines[0]];
    lines := lines + [HeaderLines[1]];
    if !HasValues(value) {
      lines := lines + [NoCostData];
      return;
    }
    var items := value.value;
    for i := 0 to |items|
      invariant lines == HeaderLines + ConsoleRows(items[..i])
    {
      var entry := EntryOf(items[i]);
      if entry.Some? {
        lines := lines + [EntryLine(entry.value)];
      } else {
        lines := lines + [InvalidData];
      }
      assert items[..i + 1][..i] == items[..i];
    }
    assert items[..|items|] == items;
  }

  /** The fetch step after the response has arrived: on success the email body
      and the console table; otherwise the error marker as the body and the
      status and error text on the console. */
  method GetDailyCost(statusCode: int, statusText: string, value: Option<seq<Item>>,
                      errorContent: string, eol: string)
    returns (body: string, console: seq<string>)
    ensures IsSuccessStatusCode(statusCode) ==>
      body == EmailBody(value, eol) && console == ConsoleLines(value)
    ensures !IsSuccessStatusCode(statusCode) ==>
      body == FetchError && console == ["Error: " + statusText, "Details: " + errorContent]
  {
    if IsSuccessStatusCode(statusCode) {
      body := FormatCostData(value, eol);
      console := DisplayCosts(value);
    } else {
      console := ["Error: " + statusText, "Details: " + errorContent];
      body := FetchError;
    }
  }
}
