/** The query schema of the list operation: optional `date`, `from` and `to`
    dates, optional non-negative integer `take` and `skip`, and `date`
    exclusive with `from`/`to`. */
module QuerySchema {
  import opened Common
  import opened HttpErrors
  import opened Dates

  const DateMessage: string := "Date format should be `yyyy-MM-dd`"
  const FromMessage: string := "`from` Date format should be `yyyy-MM-dd`"
  const ToMessage: string := "`to` Date format should be `yyyy-MM-dd`"
  const ExclusionMessage: string := "You can't use \"date\" and \"from\"/\"to\" at the same time"

  /** The schema library's own messages for the number checks. */
  const NotNumberMessage: string := "Expected number, received nan"
  const NotIntegerMessage: string := "Expected integer, received float"
  const NegativeMessage: string := "Number must be greater than or equal to 0"

  /** A query parameter after coercion to a JavaScript number. */
  datatype Coerced = NaN | Finite(x: real) | Infinity(positive: bool)

  /** The query string as received: each field absent or one string;
      `take` and `skip` already coerced to numbers. */
  datatype RawQuery = RawQuery(
    date: Option<string>,
    from: Option<string>,
    to: Option<string>,
    take: Option<Coerced>,
    skip: Option<Coerced>)

  /** `RequestQuery`: a query that passed the schema. */
  datatype Filter = Filter(
    date: Option<string>,
    from: Option<string>,
    to: Option<string>,
    take: Option<nat>,
    skip: Option<nat>)

  /** An absent count, or a finite non-negative integer. */
  predicate ValidCount(c: Option<Coerced>) {
    c.None? || (c.value.Finite? && c.value.x.Floor as real == c.value.x && c.value.x >= 0.0)
  }

  /** A whole number: finite and equal to its floor. */
  predicate IsInteger(v: Coerced) {
    v.Finite? && v.x.Floor as real == v.x
  }

  /** Below the lower bound 0. */
  predicate IsNegative(v: Coerced) {
    (v.Finite? && v.x < 0.0) || (v.Infinity? && !v.positive)
  }

  /** Failure messages of `z.coerce.number().int().min(0)` on a present
      value: the type check first, and only when it passes the integer
      check and then the lower bound. */
  function CountIssues(c: Option<Coerced>): (issues: seq<string>)
    ensures |issues| == 0 <==> ValidCount(c)
    ensures c == Some(NaN) ==> issues == [NotNumberMessage]
    ensures NotNumberMessage in issues ==> c == Some(NaN)
    ensures c.Some? && !c.value.NaN? ==>
      && (NotIntegerMessage in issues <==> !IsInteger(c.value))
      && (NegativeMessage in issues <==> IsNegative(c.value))
      && (!IsInteger(c.value) && IsNegative(c.value) ==> issues == [NotIntegerMessage, NegativeMessage])
  {
    match c
    case None => []
    case Some(NaN) => [NotNumberMessage]
    case Some(Infinity(positive)) =>
      [NotIntegerMessage] + (if positive then [] else [NegativeMessage])
    case Some(Finite(x)) =>
      (if x.Floor as real == x then [] else [NotIntegerMessage])
      + (if x >= 0.0 then [] else [NegativeMessage])
  }

  /** The integer value of a valid count. */
  function CountValue(c: Option<Coerced>): (n: Option<nat>)
    requires ValidCount(c)
    ensures n.None? <==> c.None?
    ensures n.Some? ==> n.value as real == c.value.x
  {
    if c.None? then None else Some(c.value.x.Floor as nat)
  }

  function DateIssues(s: Option<string>, message: string): (issues: seq<string>)
    ensures issues == [] <==> IsValidDate(s)
  {
    if IsValidDate(s) then [] else [message]
  }

  /** A type failure on a count stops the object check before the
      exclusion rule runs. */
  predicate Aborted(q: RawQuery) {
    q.take == Some(NaN) || q.skip == Some(NaN)
  }

  /** `date` given together with `from` or `to`. */
  predicate DateAndRange(date: Option<string>, from: Option<string>, to: Option<string>) {
    Truthy(date) && (Truthy(from) || Truthy(to))
  }

  /** Every failure message, in the order the schema reports them: the
      fields in declaration order, then the exclusion rule. */
  function QueryIssues(q: RawQuery): (issues: seq<string>)
    ensures DateMessage in issues <==> !IsValidDate(q.date)
    ensures FromMessage in issues <==> !IsValidDate(q.from)
    ensures ToMessage in issues <==> !IsValidDate(q.to)
    ensures ExclusionMessage in issues <==> !Aborted(q) && DateAndRange(q.date, q.from, q.to)
  {
    var dates := DateIssues(q.date, DateMessage) + DateIssues(q.from, FromMessage) + DateIssues(q.to, ToMessage);
    var counts := CountIssues(q.take) + CountIssues(q.skip);
    var rule := if !Aborted(q) && DateAndRange(q.date, q.from, q.to) then [ExclusionMessage] else [];
    CountMessagesOnly(q.take);
    CountMessagesOnly(q.skip);
    assert DateMessage !in counts && FromMessage !in counts && ToMessage !in counts;
    assert ExclusionMessage !in dates + counts;
    dates + counts + rule
  }

  /** Where a message stands in the schema: `date`, `from`, `to`, then the
      two counts, then the object-level exclusion rule. */
  function Rank(message: string): nat {
    if message == DateMessage then 0
    else if message == FromMessage then 1
    else if message == ToMessage then 2
    else if message == ExclusionMessage then 4
    else 3
  }

  predicate RankSorted(issues: seq<string>) {
    forall i, j :: 0 <= i < j < |issues| ==> Rank(issues[i]) <= Rank(issues[j])
  }

  predicate Below(issues: seq<string>, r: nat) {
    forall k :: 0 <= k < |issues| ==> Rank(issues[k]) <= r
  }

  predicate Above(issues: seq<string>, r: nat) {
    forall k :: 0 <= k < |issues| ==> Rank(issues[k]) >= r
  }

  /** The fields report in declaration order, and the exclusion rule, which
      runs on the parsed object, reports after all of them. */
  lemma QueryIssuesOrder(q: RawQuery)
    ensures RankSorted(QueryIssues(q))
    ensures !IsValidDate(q.date) ==> QueryIssues(q)[0] == DateMessage
    ensures ExclusionMessage in QueryIssues(q) ==> QueryIssues(q)[|QueryIssues(q)| - 1] == ExclusionMessage
  {
    var d0, d1, d2 := DateIssues(q.date, DateMessage), DateIssues(q.from, FromMessage), DateIssues(q.to, ToMessage);
    var counts := CountIssues(q.take) + CountIssues(q.skip);
    var rule := if !Aborted(q) && DateAndRange(q.date, q.from, q.to) then [ExclusionMessage] else [];
    assert QueryIssues(q) == d0 + d1 + d2 + counts + rule;
    DateIssuesRanked(q.date, DateMessage);
    DateIssuesRanked(q.from, FromMessage);
    DateIssuesRanked(q.to, ToMessage);
    CountIssuesRanked(q.take);
    CountIssuesRanked(q.skip);
    RankSortedConcat(CountIssues(q.take), CountIssues(q.skip), 3, 3, 3);
    assert forall k :: 0 <= k < |rule| ==> rule[k] == ExclusionMessage;
    assert Rank(ExclusionMessage) == 4;
    PartsInRankOrder(d0, d1, d2, counts, rule);
  }

  /** Five parts, each of a single rank and ranked in turn, concatenate to a
      rank-sorted list. */
  lemma PartsInRankOrder(d0: seq<string>, d1: seq<string>, d2: seq<string>, counts: seq<string>, rule: seq<string>)
    requires RankSorted(d0) && Below(d0, 0)
    requires RankSorted(d1) && Above(d1, 1) && Below(d1, 1)
    requires RankSorted(d2) && Above(d2, 2) && Below(d2, 2)
    requires RankSorted(counts) && Above(counts, 3) && Below(counts, 3)
    requires forall k :: 0 <= k < |rule| ==> Rank(rule[k]) == 4
    ensures RankSorted(d0 + d1 + d2 + counts + rule)
  {
    RankSortedConcat(d0, d1, 0, 1, 1);
    RankSortedConcat(d0 + d1, d2, 1, 2, 2);
    RankSortedConcat(d0 + d1 + d2, counts, 2, 3, 3);
    RankSortedConcat(d0 + d1 + d2 + counts, rule, 3, 4, 4);
  }

  /** A date field reports nothing or its own message. */
  lemma DateIssuesRanked(s: Option<string>, message: string)
    ensures RankSorted(DateIssues(s, message))
    ensures Below(DateIssues(s, message), Rank(message)) && Above(DateIssues(s, message), Rank(message))
  {
  }

  /** A count reports only messages ranked between the date fields and
      the exclusion rule. */
  lemma CountIssuesRanked(c: Option<Coerced>)
    ensures RankSorted(CountIssues(c))
    ensures Below(CountIssues(c), 3) && Above(CountIssues(c), 3)
  {
    var issues := CountIssues(c);
    CountMessagesOnly(c);
    forall k | 0 <= k < |issues|
      ensures Rank(issues[k]) == 3
    {
      assert issues[k] in issues;
    }
  }

  /** Two rank-sorted lists, the first ranked no higher than the second,
      concatenate to a rank-sorted list. */
  lemma RankSortedConcat(a: seq<string>, b: seq<string>, lo: nat, mid: nat, hi: nat)
    requires RankSorted(a) && RankSorted(b)
    requires lo <= mid <= hi && Below(a, lo) && Above(b, mid) && Below(b, hi)
    ensures RankSorted(a + b) && Below(a + b, hi)
  {
    forall i, j | 0 <= i < j < |a + b|
      ensures Rank((a + b)[i]) <= Rank((a + b)[j])
    {
      if j < |a| {
        assert (a + b)[i] == a[i] && (a + b)[j] == a[j];
      } else if i >= |a| {
        assert (a + b)[i] == b[i - |a|] && (a + b)[j] == b[j - |a|];
      } else {
        assert (a + b)[i] == a[i] && (a + b)[j] == b[j - |a|];
      }
    }
    forall k | 0 <= k < |a + b|
      ensures Rank((a + b)[k]) <= hi
    {
      if k < |a| {
        assert (a + b)[k] == a[k];
      } else {
        assert (a + b)[k] == b[k - |a|];
      }
    }
  }

  /** A count reports only the three number messages. */
  lemma CountMessagesOnly(c: Option<Coerced>)
    ensures forall m :: m in CountIssues(c) ==>
      m == NotNumberMessage || m == NotIntegerMessage || m == NegativeMessage
  {
  }

  /** A query the schema accepts. */
  predicate ValidFilter(f: Filter) {
    && IsValidDate(f.date) && IsValidDate(f.from) && IsValidDate(f.to)
    && !DateAndRange(f.date, f.from, f.to)
  }

  /** Parse a query: the dates pass through as given, the counts become
      integers; otherwise status 400 with every failure message. */
  function ValidateQuery(q: RawQuery): (r: Result<Filter>)
    ensures r.Ok? <==>
      && IsValidDate(q.date) && IsValidDate(q.from) && IsValidDate(q.to)
      && ValidCount(q.take) && ValidCount(q.skip)
      && !DateAndRange(q.date, q.from, q.to)
    ensures r.Ok? ==> ValidFilter(r.value)
    ensures r.Ok? ==> r.value.date == q.date && r.value.from == q.from && r.value.to == q.to
    ensures r.Ok? ==> ValidCount(q.take) && r.value.take == CountValue(q.take)
    ensures r.Ok? ==> ValidCount(q.skip) && r.value.skip == CountValue(q.skip)
    ensures r.Err? ==> r.error.statusCode == BadRequestStatus
  {
    var issues := QueryIssues(q);
    if |issues| == 0 then
      Ok(Filter(q.date, q.from, q.to, CountValue(q.take), CountValue(q.skip)))
    else
      Err(BadRequest(issues))
  }

  /** `date` together with `from` or `to` is refused, naming the rule,
      whenever the counts are numbers; with everything else valid the rule
      is the whole message. */
  lemma DateWithRangeRejected(q: RawQuery)
    requires DateAndRange(q.date, q.from, q.to) && !Aborted(q)
    ensures ValidateQuery(q).Err?
    ensures ExclusionMessage in QueryIssues(q)
    ensures IsValidDate(q.date) && IsValidDate(q.from) && IsValidDate(q.to)
            && ValidCount(q.take) && ValidCount(q.skip)
        ==> ValidateQuery(q).error.message == ExclusionMessage
  {
    if IsValidDate(q.date) && IsValidDate(q.from) && IsValidDate(q.to)
       && ValidCount(q.take) && ValidCount(q.skip) {
      assert QueryIssues(q) == [ExclusionMessage];
    }
  }

  /** `date` alone, or `from`/`to` alone or together, never trips the rule. */
  lemma DateOrRangeAlonePasses(q: RawQuery)
    requires !Truthy(q.date) || (!Truthy(q.from) && !Truthy(q.to))
    ensures ExclusionMessage !in QueryIssues(q)
  {
    assert ExclusionMessage != DateMessage && ExclusionMessage != FromMessage && ExclusionMessage != ToMessage;
    assert ExclusionMessage != NotNumberMessage && ExclusionMessage != NotIntegerMessage
           && ExclusionMessage != NegativeMessage;
  }

  /** A present date that is not a `yyyy-MM-dd` calendar date is refused
      with the message of its own field. */
  lemma BadDateRejected(q: RawQuery)
    requires !IsValidDate(q.date) || !IsValidDate(q.from) || !IsValidDate(q.to)
    ensures ValidateQuery(q).Err?
    ensures Truthy(q.date) && !IsFullDate(q.date.value) ==> DateMessage in QueryIssues(q)
    ensures Truthy(q.from) && !IsFullDate(q.from.value) ==> FromMessage in QueryIssues(q)
    ensures Truthy(q.to) && !IsFullDate(q.to.value) ==> ToMessage in QueryIssues(q)
  {
    var issues := QueryIssues(q);
    assert DateMessage in issues || FromMessage in issues || ToMessage in issues;
  }

  /** Every field is optional: the empty query passes and filters nothing. */
  lemma EmptyQueryAccepted()
    ensures ValidateQuery(RawQuery(None, None, None, None, None)) == Ok(Filter(None, None, None, None, None))
  {
  }

  /** Any count that is not a whole non-negative number is refused, and
      the 400 names one of the number messages. */
  lemma BadCountsRejected(q: RawQuery)
    requires !ValidCount(q.take) || !ValidCount(q.skip)
    ensures ValidateQuery(q).Err?
    ensures NotNumberMessage in QueryIssues(q) || NotIntegerMessage in QueryIssues(q)
      || NegativeMessage in QueryIssues(q)
  {
    var counts := CountIssues(q.take) + CountIssues(q.skip);
    assert |counts| > 0;
    assert counts[0] in QueryIssues(q) by {
      assert QueryIssues(q) == DateIssues(q.date, DateMessage) + DateIssues(q.from, FromMessage)
        + DateIssues(q.to, ToMessage) + counts
        + (if !Aborted(q) && DateAndRange(q.date, q.from, q.to) then [ExclusionMessage] else []);
    }
    CountMessagesOnly(q.take);
    CountMessagesOnly(q.skip);
  }

  /** The query a filter is received as. */
  function RawOf(f: Filter): RawQuery {
    RawQuery(f.date, f.from, f.to,
             if f.take.None? then None else Some(Finite(f.take.value as real)),
             if f.skip.None? then None else Some(Finite(f.skip.value as real)))
  }

  /** The schema accepts exactly the valid filters: each is the result of
      parsing its own query string. */
  lemma ValidFilterRoundTrip(f: Filter)
    requires ValidFilter(f)
    ensures ValidateQuery(RawOf(f)) == Ok(f)
  {
  }
}
