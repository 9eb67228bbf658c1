/**
  The text the program derives from the usage records: the email body and the
  console table. Each is a pure function of the response's `value` array, and
  each list-valued function is defined by its last element, in the order the
  program's loops append. The lemmas state what these texts promise.
 */
module Report {

  import opened Wrappers
  import opened UsageRecords

  const NoCostData := "No cost data found."
  const InvalidData := "Invalid or missing data in response."
  const FetchError := "Error fetching cost data."
  const HeaderLines := ["Date\t\tCost", "----------|------------"]

  /** The report line of one entry: its date, a tab, its cost. */
  function EntryLine(e: Entry): string
  {
    e.date + "\t" + e.cost
  }

  /** The report lines of the valid items, in input order; invalid items add nothing. */
  function EmailLines(items: seq<Item>): seq<string>
  {
    if items == [] then []
    else
      var last := items[|items| - 1];
      EmailLines(items[..|items| - 1]) + if IsValid(last) then [EntryLine(EntryOf(last).value)] else []
  }

  /** Every line followed by the line terminator `eol`, all concatenated. */
  function JoinLines(lines: seq<string>, eol: string): string
  {
    if lines == [] then ""
    else JoinLines(lines[..|lines| - 1], eol) + lines[|lines| - 1] + eol
  }

  /** The email body built from the response's `value` array. */
  function EmailBody(value: Option<seq<Item>>, eol: string): string
  {
    if !HasValues(value) then NoCostData else JoinLines(EmailLines(value.value), eol)
  }

  /** The console line of one item: its report line, or the invalid-data notice. */
  function ConsoleRow(item: Item): string
  {
    if IsValid(item) then EntryLine(EntryOf(item).value) else InvalidData
  }

  /** One console line per item, in input order. */
  function ConsoleRows(items: seq<Item>): seq<string>
  {
    if items == [] then []
    else ConsoleRows(items[..|items| - 1]) + [ConsoleRow(items[|items| - 1])]
  }

  /** The whole console table: the header, then the no-data sentence or one row per item. */
  function ConsoleLines(value: Option<seq<Item>>): seq<string>
  {
    HeaderLines + if HasValues(value) then ConsoleRows(value.value) else [NoCostData]
  }

  /** The indices of the valid items: increasing, in range, and exactly the valid ones. */
  function ValidIndices(items: seq<Item>): (idx: seq<nat>)
    ensures forall k :: 0 <= k < |idx| ==> idx[k] < |items| && IsValid(items[idx[k]])
    ensures forall k, l :: 0 <= k < l < |idx| ==> idx[k] < idx[l]
    ensures forall i :: 0 <= i < |items| && IsValid(items[i]) ==> i in idx
  {
    if items == [] then []
    else
      var n := |items| - 1;
      ValidIndices(items[..n]) + if IsValid(items[n]) then [n] else []
  }

  /** The console rows that remain once the invalid-data notices are discarded. */
  function DropInvalidRows(rows: seq<string>): seq<string>
  {
    if rows == [] then []
    else
      var last := rows[|rows| - 1];
      DropInvalidRows(rows[..|rows| - 1]) + if last == InvalidData then [] else [last]
  }

  /** The number of occurrences of `c` in `s`. */
  function Occurrences(s: string, c: char): nat
  {
    if s == [] then 0 else Occurrences(s[..|s| - 1], c) + if s[|s| - 1] == c then 1 else 0
  }

  /** The email has one line per valid item, and the k-th line is that of the
      k-th valid item: the valid items keep their relative order, none is
      dropped and none is invented. */
  lemma {:induction false} EmailLinesFollowValidItems(items: seq<Item>)
    ensures |EmailLines(items)| == |ValidIndices(items)|
    ensures forall k :: 0 <= k < |EmailLines(items)| ==>
      EmailLines(items)[k] == EntryLine(EntryOf(items[ValidIndices(items)[k]]).value)
  {
    if items != [] {
      var n := |items| - 1;
      EmailLinesFollowValidItems(items[..n]);
      var lines, idx := EmailLines(items), ValidIndices(items);
      forall k | 0 <= k < |lines|
        ensures lines[k] == EntryLine(EntryOf(items[idx[k]]).value)
      {
        if k < |EmailLines(items[..n])| {
          assert items[idx[k]] == items[..n][ValidIndices(items[..n])[k]];
        }
      }
    }
  }

  /** A non-empty array in which no item is valid gives the empty body, so the
      email then does not carry the no-data sentence either. */
  lemma {:induction false} AllInvalidGivesEmptyBody(items: seq<Item>, eol: string)
    requires items != []
    requires forall i :: 0 <= i < |items| ==> !IsValid(items[i])
    ensures EmailBody(Some(items), eol) == ""
  {
    NoValidItemsNoLines(items);
  }

  lemma {:induction false} NoValidItemsNoLines(items: seq<Item>)
    requires forall i :: 0 <= i < |items| ==> !IsValid(items[i])
    ensures EmailLines(items) == []
  {
    if items != [] {
      NoValidItemsNoLines(items[..|items| - 1]);
    }
  }

  /** A report line always holds a tab. */
  lemma EntryLineHasTab(e: Entry)
    ensures '\t' in EntryLine(e)
  {
  }

  /** A report line can never be mistaken for the invalid-data notice. */
  lemma EntryLineIsNotInvalidData(e: Entry)
    ensures EntryLine(e) != InvalidData
  {
    EntryLineHasTab(e);
    assert '\t' !in InvalidData;
  }

  /** Console/email consistency: discarding the invalid-data notices from the
      console rows leaves exactly the email's lines, in the same order. */
  lemma {:induction false} ConsoleRowsAgreeWithEmail(items: seq<Item>)
    ensures DropInvalidRows(ConsoleRows(items)) == EmailLines(items)
  {
    if items != [] {
      var n := |items| - 1;
      ConsoleRowsAgreeWithEmail(items[..n]);
      var rows := ConsoleRows(items);
      assert rows[..|rows| - 1] == ConsoleRows(items[..n]);
      if IsValid(items[n]) {
        EntryLineIsNotInvalidData(EntryOf(items[n]).value);
      }
    }
  }

  /** The console table after its header tells the same story as the email body:
      the same no-data sentence, or the email's lines once the notices are dropped. */
  lemma ConsoleAgreesWithEmail(value: Option<seq<Item>>, eol: string)
    ensures ConsoleLines(value)[..2] == HeaderLines
    ensures !HasValues(value) ==> ConsoleLines(value)[2..] == [EmailBody(value, eol)]
    ensures HasValues(value) ==>
      JoinLines(DropInvalidRows(ConsoleLines(value)[2..]), eol) == EmailBody(value, eol)
  {
    if HasValues(value) {
      ConsoleRowsAgreeWithEmail(value.value);
      assert ConsoleLines(value)[2..] == ConsoleRows(value.value);
    }
  }

  /** After the header the console has one row per item, and row i is item i's
      report line when the item is valid and the invalid-data notice otherwise. */
  lemma {:induction false} ConsoleRowsPerItem(items: seq<Item>)
    ensures |ConsoleRows(items)| == |items|
    ensures forall i :: 0 <= i < |items| ==>
      ConsoleRows(items)[i] == ConsoleRow(items[i])
  {
    if items != [] {
      var n := |items| - 1;
      ConsoleRowsPerItem(items[..n]);
      var rows, prev := ConsoleRows(items), ConsoleRows(items[..n]);
      assert rows == prev + [ConsoleRow(items[n])];
      forall i | 0 <= i < |items|
        ensures rows[i] == ConsoleRow(items[i])
      {
        if i < n {
          assert rows[i] == prev[i] && items[..n][i] == items[i];
        }
      }
    }
  }

  lemma {:induction false} OccurrencesAppend(a: string, b: string, c: char)
    ensures Occurrences(a + b, c) == Occurrences(a, c) + Occurrences(b, c)
  {
    if b != [] {
      var n := |b| - 1;
      assert (a + b)[..|a + b| - 1] == a + b[..n];
      OccurrencesAppend(a, b[..n], c);
    } else {
      assert a + b == a;
    }
  }

  lemma {:induction false} OccurrencesAbsent(s: string, c: char)
    requires c !in s
    ensures Occurrences(s, c) == 0
  {
    if s != [] {
      OccurrencesAbsent(s[..|s| - 1], c);
    }
  }

  /** Joined with a terminator that holds `c` exactly once (such as "\n" or
      "\r\n" for `c` = '\n'), lines that do not contain `c` give a text that
      holds `c` exactly once per line. */
  lemma {:induction false} JoinLinesCount(lines: seq<string>, eol: string, c: char)
    requires Occurrences(eol, c) == 1
    requires forall k :: 0 <= k < |lines| ==> c !in lines[k]
    ensures Occurrences(JoinLines(lines, eol), c) == |lines|
  {
    if lines != [] {
      var n := |lines| - 1;
      JoinLinesCount(lines[..n], eol, c);
      OccurrencesAppend(JoinLines(lines[..n], eol) + lines[n], eol, c);
      OccurrencesAppend(JoinLines(lines[..n], eol), lines[n], c);
      OccurrencesAbsent(lines[n], c);
    }
  }

  /** Neither the usage start nor the cost of `item`, where present, contains `c`. */
  predicate FieldsAvoid(item: Item, c: char)
  {
    && (UsageStart(item).Some? ==> c !in UsageStart(item).value)
    && (PretaxCost(item).Some? ==> c !in PretaxCost(item).value)
  }

  /** When the line terminator holds a character `c` exactly once ('\n' in both
      "\n" and "\r\n") and neither the tab nor any usage start or cost contains
      `c`, a non-empty array gives a body with exactly one `c`, that is one
      line, per valid item. */
  lemma EmailBodyLineCount(items: seq<Item>, eol: string, c: char)
    requires items != [] && c != '\t' && Occurrences(eol, c) == 1
    requires forall i :: 0 <= i < |items| ==> FieldsAvoid(items[i], c)
    ensures Occurrences(EmailBody(Some(items), eol), c) == |ValidIndices(items)|
  {
    EmailLinesFollowValidItems(items);
    var lines, idx := EmailLines(items), ValidIndices(items);
    forall k | 0 <= k < |lines|
      ensures c !in lines[k]
    {
      var e := EntryOf(items[idx[k]]).value;
      assert lines[k] == e.date + "\t" + e.cost;
    }
    JoinLinesCount(lines, eol, c);
  }

  /** The body of a failed fetch differs from every body a successful one can
      produce, whatever the line terminator. */
  lemma FetchErrorIsNotAReport(value: Option<seq<Item>>, eol: string)
    ensures EmailBody(value, eol) != FetchError
  {
    if HasValues(value) {
      var lines := EmailLines(value.value);
      if lines != [] {
        var n := |lines| - 1;
        EmailLinesFollowValidItems(value.value);
        var e := EntryOf(value.value[ValidIndices(value.value)[n]]).value;
        var prefix := JoinLines(lines[..n], eol);
        var body := JoinLines(lines, eol);
        assert body == prefix + EntryLine(e) + eol;
        assert body[|prefix| + |e.date|] == '\t';
        assert '\t' !in FetchError;
      }
    }
  }
}
