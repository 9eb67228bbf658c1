/**
  The usage records of the billing API's usage-details response, as already
  parsed JSON, and the per-item extraction of a report entry from one record.
 */
module UsageRecords {

  import opened Wrappers

  /** The `properties` object of one record. A member that is absent is `None`;
      a present member is the text its JSON token prints as. */
  datatype Properties = Properties(usageStart: Option<string>, pretaxCost: Option<string>)

  /** One element of the response's `value` array. */
  datatype Item = Item(properties: Option<Properties>)

  /** What one valid record contributes to the report: its date and its cost. */
  datatype Entry = Entry(date: string, cost: string)

  /** The `value` array holds at least one element: a missing array and an
      empty one both mean "no cost data". */
  predicate HasValues(value: Option<seq<Item>>)
  {
    value.Some? && value.value != []
  }

  /** The first piece of `s` split at 'T': everything before the first 'T',
      or all of `s` when it holds none. */
  function DatePart(s: string): (d: string)
    ensures d <= s
    ensures 'T' !in d
    ensures |d| < |s| ==> s[|d|] == 'T'
  {
    if s == [] || s[0] == 'T' then [] else [s[0]] + DatePart(s[1..])
  }

  /** The `usageStart` text of an item, when both `properties` and the member exist. */
  function UsageStart(item: Item): Option<string>
  {
    match item.properties
    case None => None
    case Some(p) => p.usageStart
  }

  /** The `pretaxCost` text of an item, when both `properties` and the member exist. */
  function PretaxCost(item: Item): Option<string>
  {
    match item.properties
    case None => None
    case Some(p) => p.pretaxCost
  }

  /** An item is valid when it carries both a usage start and a pre-tax cost. */
  predicate IsValid(item: Item)
  {
    UsageStart(item).Some? && PretaxCost(item).Some?
  }

  /** The date and cost read from one item, or `None` when either is missing. */
  function EntryOf(item: Item): (e: Option<Entry>)
    ensures e.Some? <==> IsValid(item)
    ensures e.Some? ==> e.value.cost == PretaxCost(item).value
    ensures e.Some? ==>
      var start := UsageStart(item).value;
      && e.value.date <= start
      && 'T' !in e.value.date
      && (|e.value.date| == |start| || start[|e.value.date|] == 'T')
  {
    match (UsageStart(item), PretaxCost(item))
    case (Some(start), Some(cost)) => Some(Entry(DatePart(start), cost))
    case _ => None
  }

  /** Any prefix of `s` that holds no 'T' and ends at a 'T' or at the end of
      `s` is the date part: the characterisation above picks exactly one. */
  lemma DatePartUnique(s: string, d: string)
    requires d <= s && 'T' !in d
    requires |d| == |s| || s[|d|] == 'T'
    ensures d == DatePart(s)
  {
    var p := DatePart(s);
    assert |p| == |d|;
    assert p == s[..|p|] == d;
  }

  /** A usage start that begins with 'T' (or is empty) gives an empty date, and
      the item still counts as valid. */
  lemma EmptyDateIsPresent(start: string, cost: string)
    requires start == [] || start[0] == 'T'
    ensures EntryOf(Item(Some(Properties(Some(start), Some(cost))))) == Some(Entry("", cost))
  {
  }
}
