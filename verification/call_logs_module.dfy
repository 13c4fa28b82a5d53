/**
 * The native call-log module (android/app/src/main/java/com/crmmobile/CallLogsModule.kt):
 * `getCallLogs` maps cursor rows to call-log records, and `getTopContactsByDuration`
 * groups rows per contact, sums durations, sorts descending and keeps the top N.
 * The content-provider cursor is a sequence of rows (None when the query returned null).
 */
module CallLogsModule {

  import opened Wrappers
  import opened Text

  /** One cursor row; a null NUMBER or CACHED_NAME column is None. */
  datatype Row = Row(number: Option<string>, cachedName: Option<string>, typeCode: int, date: int, duration: int)

  /** The rows a cursor yields; a null cursor yields none. */
  function CursorRows(cursor: Option<seq<Row>>): seq<Row> {
    if cursor.Some? then cursor.value else []
  }

  // Android's CallLog.Calls type codes the module recognises.
  const IncomingType := 1
  const OutgoingType := 2
  const MissedType := 3
  const RejectedType := 5

  /** The `type` field of a record (src/modules/CallLogsModule.ts). */
  datatype CallType = Incoming | Outgoing | Missed | Rejected | Unknown

  function CallTypeName(t: CallType): string {
    match t
    case Incoming => "INCOMING"
    case Outgoing => "OUTGOING"
    case Missed => "MISSED"
    case Rejected => "REJECTED"
    case Unknown => "UNKNOWN"
  }

  /** The `when (type)` classification. */
  function ClassifyType(code: int): (t: CallType)
    ensures t == Unknown <==> code !in {IncomingType, OutgoingType, MissedType, RejectedType}
  {
    if code == IncomingType then Incoming
    else if code == OutgoingType then Outgoing
    else if code == MissedType then Missed
    else if code == RejectedType then Rejected
    else Unknown
  }

  /** Distinct call types print as distinct names. */
  lemma CallTypeNamesDistinct(a: CallType, b: CallType)
    ensures CallTypeName(a) == CallTypeName(b) <==> a == b
  {
  }

  /** A record of `getCallLogs` (CallLogItem in src/modules/CallLogsModule.ts). */
  datatype CallLogItem = CallLogItem(phoneNumber: string, name: Option<string>, callType: CallType, date: int, duration: int)

  function ToCallLogItem(r: Row): CallLogItem {
    CallLogItem(r.number.GetOr("Unknown"), r.cachedName, ClassifyType(r.typeCode), r.date, r.duration)
  }

  /** The row a record describes: every column but the number is carried over, a null number reads "Unknown". */
  predicate Describes(item: CallLogItem, r: Row) {
    && item.name == r.cachedName
    && item.callType == ClassifyType(r.typeCode)
    && item.date == r.date
    && item.duration == r.duration
    && (r.number.Some? ==> item.phoneNumber == r.number.value)
    && (r.number.None? ==> item.phoneNumber == "Unknown")
  }

  function Min(a: int, b: int): int {
    if a <= b then a else b
  }

  /** `getCallLogs`: reads rows while the cursor has one and fewer than `limit` were taken. */
  method GetCallLogs(cursor: Option<seq<Row>>, limit: int) returns (items: seq<CallLogItem>)
    ensures cursor.None? ==> items == []
    ensures limit <= 0 ==> items == []
    ensures |items| == if limit <= 0 then 0 else Min(limit, |CursorRows(cursor)|)
    ensures forall i :: 0 <= i < |items| ==> Describes(items[i], CursorRows(cursor)[i])
  {
    items := [];
    if cursor.None? {
      return;
    }
    var rows := cursor.value;
    var count := 0;
    while count < |rows| && count < limit
      invariant 0 <= count <= |rows|
      invariant limit <= 0 ==> count == 0
      invariant count <= limit || count == 0
      invariant |items| == count
      invariant forall i :: 0 <= i < count ==> Describes(items[i], rows[i])
    {
      items := items + [ToCallLogItem(rows[count])];
      count := count + 1;
    }
  }

  /** The number a top-contacts row is grouped under: null reads "Unknown". */
  function NumberOf(r: Row): string {
    r.number.GetOr("Unknown")
  }

  /** The cached name, or the number when the name is null. */
  function DisplayName(r: Row): string {
    r.cachedName.GetOr(NumberOf(r))
  }

  /** The grouping key `"$displayName|$number"`. */
  function ContactKey(r: Row): string {
    DisplayName(r) + "|" + NumberOf(r)
  }

  /** `ContactStats`, also the TopContact record of src/modules/CallLogsModule.ts. */
  datatype ContactStats = ContactStats(name: string, phoneNumber: string, totalDuration: int, callCount: int)

  /** An insertion-ordered map (Kotlin's `mutableMapOf`): keys in first-insertion order, plus the map. */
  datatype ContactTable = ContactTable(keys: seq<string>, stats: map<string, ContactStats>)

  /** One loop iteration: a known key is overwritten in place, a new key is appended. */
  function AddCall(t: ContactTable, r: Row): ContactTable {
    var key := ContactKey(r);
    if key in t.stats then
      var prev := t.stats[key];
      ContactTable(t.keys, t.stats[key := ContactStats(DisplayName(r), NumberOf(r), prev.totalDuration + r.duration, prev.callCount + 1)])
    else
      ContactTable(t.keys + [key], t.stats[key := ContactStats(DisplayName(r), NumberOf(r), r.duration, 1)])
  }

  /** The table after reading all rows in order. */
  function Tabulate(rows: seq<Row>): ContactTable
    decreases |rows|
  {
    if |rows| == 0 then ContactTable([], map[])
    else AddCall(Tabulate(rows[..|rows| - 1]), rows[|rows| - 1])
  }

  /** Number of rows with key `k`. */
  function CallsWith(rows: seq<Row>, k: string): nat
    decreases |rows|
  {
    if |rows| == 0 then 0
    else CallsWith(rows[..|rows| - 1], k) + (if ContactKey(rows[|rows| - 1]) == k then 1 else 0)
  }

  /** Sum of the durations of the rows with key `k`. */
  function DurationWith(rows: seq<Row>, k: string): int
    decreases |rows|
  {
    if |rows| == 0 then 0
    else DurationWith(rows[..|rows| - 1], k) + (if ContactKey(rows[|rows| - 1]) == k then rows[|rows| - 1].duration else 0)
  }

  lemma {:induction false} NoCallsNoDuration(rows: seq<Row>, k: string)
    requires CallsWith(rows, k) == 0
    ensures DurationWith(rows, k) == 0
    decreases |rows|
  {
    if |rows| > 0 {
      NoCallsNoDuration(rows[..|rows| - 1], k);
    }
  }

  /** A key with no calls is carried by no row. */
  lemma {:induction false} NoCallsNoKey(rows: seq<Row>, k: string)
    requires CallsWith(rows, k) == 0
    ensures forall j :: 0 <= j < |rows| ==> ContactKey(rows[j]) != k
    decreases |rows|
  {
    if |rows| > 0 {
      var prefix := rows[..|rows| - 1];
      NoCallsNoKey(prefix, k);
      assert forall j :: 0 <= j < |prefix| ==> rows[j] == prefix[j];
    }
  }

  /** Index of the first row with key `k`. */
  function FirstIndex(rows: seq<Row>, k: string): (i: nat)
    requires CallsWith(rows, k) > 0
    ensures i < |rows| && ContactKey(rows[i]) == k
    decreases |rows|
  {
    if CallsWith(rows[..|rows| - 1], k) > 0 then FirstIndex(rows[..|rows| - 1], k) else |rows| - 1
  }

  /** No row before `FirstIndex` carries the key. */
  lemma {:induction false} FirstIndexIsFirst(rows: seq<Row>, k: string)
    requires CallsWith(rows, k) > 0
    ensures forall j :: 0 <= j < FirstIndex(rows, k) ==> ContactKey(rows[j]) != k
    decreases |rows|
  {
    var prefix := rows[..|rows| - 1];
    assert forall j :: 0 <= j < |prefix| ==> rows[j] == prefix[j];
    if CallsWith(prefix, k) > 0 {
      FirstIndexIsFirst(prefix, k);
    } else {
      NoCallsNoKey(prefix, k);
    }
  }

  /** Index of the last row with key `k`. */
  function LastIndex(rows: seq<Row>, k: string): (i: nat)
    requires CallsWith(rows, k) > 0
    ensures i < |rows| && ContactKey(rows[i]) == k
    ensures forall j :: i < j < |rows| ==> ContactKey(rows[j]) != k
    decreases |rows|
  {
    if ContactKey(rows[|rows| - 1]) == k then |rows| - 1
    else
      var prefix := rows[..|rows| - 1];
      assert forall j :: 0 <= j < |prefix| ==> rows[j] == prefix[j];
      LastIndex(prefix, k)
  }

  /** The last row with key `k`, the one whose name and number the table keeps. */
  function LastWith(rows: seq<Row>, k: string): (r: Row)
    requires CallsWith(rows, k) > 0
    ensures r in rows && ContactKey(r) == k
    decreases |rows|
  {
    if ContactKey(rows[|rows| - 1]) == k then rows[|rows| - 1] else LastWith(rows[..|rows| - 1], k)
  }

  /** `LastWith` picks the row at `LastIndex`, so no row after it carries its key. */
  lemma {:induction false} LastWithIsLast(rows: seq<Row>, k: string)
    requires CallsWith(rows, k) > 0
    ensures LastWith(rows, k) == rows[LastIndex(rows, k)]
    ensures exists i :: 0 <= i < |rows| && rows[i] == LastWith(rows, k) && forall j :: i < j < |rows| ==> ContactKey(rows[j]) != k
    decreases |rows|
  {
    if ContactKey(rows[|rows| - 1]) != k {
      LastWithIsLast(rows[..|rows| - 1], k);
    }
  }

  predicate DistinctKeys(keys: seq<string>) {
    forall i, j :: 0 <= i < j < |keys| ==> keys[i] != keys[j]
  }

  /** The table's keys are the distinct keys of the rows, each once. */
  ghost predicate KeysOf(t: ContactTable, rows: seq<Row>) {
    && DistinctKeys(t.keys)
    && (forall k :: k in t.stats <==> k in t.keys)
    && (forall k :: k in t.stats <==> CallsWith(rows, k) > 0)
  }

  /** Each entry holds the call count and duration sum of its key's rows. */
  ghost predicate TotalsOf(t: ContactTable, rows: seq<Row>) {
    forall k :: k in t.stats ==>
      && t.stats[k].callCount == CallsWith(rows, k)
      && t.stats[k].totalDuration == DurationWith(rows, k)
  }

  /** Each entry is named after the last row with its key. */
  ghost predicate NamesOf(t: ContactTable, rows: seq<Row>) {
    forall k :: k in t.stats && CallsWith(rows, k) > 0 ==>
      && t.stats[k].name == DisplayName(LastWith(rows, k))
      && t.stats[k].phoneNumber == NumberOf(LastWith(rows, k))
  }

  /** Keys are kept in order of first appearance. */
  ghost predicate FirstSeenOrder(t: ContactTable, rows: seq<Row>) {
    forall i, j :: 0 <= i < j < |t.keys| && CallsWith(rows, t.keys[i]) > 0 && CallsWith(rows, t.keys[j]) > 0 ==>
      FirstIndex(rows, t.keys[i]) < FirstIndex(rows, t.keys[j])
  }

  /**
   * What the table holds after reading `rows`: one entry per distinct key, in order of
   * first appearance, with the call count and duration sum of that key's rows, named
   * after its last row.
   */
  ghost predicate TableOf(t: ContactTable, rows: seq<Row>) {
    KeysOf(t, rows) && TotalsOf(t, rows) && NamesOf(t, rows) && FirstSeenOrder(t, rows)
  }

  lemma {:induction false} TabulateKeys(rows: seq<Row>)
    ensures KeysOf(Tabulate(rows), rows)
    decreases |rows|
  {
    if |rows| > 0 {
      var p := rows[..|rows| - 1];
      TabulateKeys(p);
    }
  }

  lemma {:induction false} TabulateTotals(rows: seq<Row>)
    ensures TotalsOf(Tabulate(rows), rows)
    decreases |rows|
  {
    if |rows| > 0 {
      var p := rows[..|rows| - 1];
      var r := rows[|rows| - 1];
      TabulateKeys(p);
      TabulateTotals(p);
      var t := Tabulate(p);
      var t' := Tabulate(rows);
      forall k | k in t'.stats
        ensures t'.stats[k].callCount == CallsWith(rows, k)
        ensures t'.stats[k].totalDuration == DurationWith(rows, k)
      {
        if k == ContactKey(r) {
          if k in t.stats {
            assert t'.stats[k].callCount == t.stats[k].callCount + 1;
          } else {
            assert CallsWith(p, k) == 0;
            NoCallsNoDuration(p, k);
          }
        } else {
          assert t'.stats[k] == t.stats[k];
        }
      }
    }
  }

  lemma {:induction false} TabulateNames(rows: seq<Row>)
    ensures NamesOf(Tabulate(rows), rows)
    decreases |rows|
  {
    if |rows| > 0 {
      var p := rows[..|rows| - 1];
      TabulateKeys(p);
      TabulateNames(p);
    }
  }

  lemma {:induction false} TabulateOrder(rows: seq<Row>)
    ensures FirstSeenOrder(Tabulate(rows), rows)
    decreases |rows|
  {
    if |rows| > 0 {
      var p := rows[..|rows| - 1];
      var r := rows[|rows| - 1];
      TabulateKeys(p);
      TabulateOrder(p);
      var t := Tabulate(p);
      var t' := Tabulate(rows);
      var key := ContactKey(r);
      forall i, j | 0 <= i < j < |t'.keys| && CallsWith(rows, t'.keys[i]) > 0 && CallsWith(rows, t'.keys[j]) > 0
        ensures FirstIndex(rows, t'.keys[i]) < FirstIndex(rows, t'.keys[j])
      {
        assert t'.keys[i] in t.keys;
        assert CallsWith(p, t'.keys[i]) > 0;
        if j < |t.keys| {
          assert t'.keys[j] in t.keys;
          assert CallsWith(p, t'.keys[j]) > 0;
        }
      }
    }
  }

  lemma TabulateIsTableOf(rows: seq<Row>)
    ensures TableOf(Tabulate(rows), rows)
  {
    TabulateKeys(rows);
    TabulateTotals(rows);
    TabulateNames(rows);
    TabulateOrder(rows);
  }

  predicate KeysInStats(t: ContactTable) {
    forall k :: k in t.keys ==> k in t.stats
  }

  /** `contactDurations.values`: the entries in key-insertion order. */
  function Values(t: ContactTable): (vs: seq<ContactStats>)
    requires KeysInStats(t)
    ensures |vs| == |t.keys|
    ensures forall i :: 0 <= i < |vs| ==> vs[i] == t.stats[t.keys[i]]
  {
    seq(|t.keys|, i requires 0 <= i < |t.keys| => t.stats[t.keys[i]])
  }

  /** Which counter of an entry a sum adds up. */
  datatype Counter = Calls | Seconds

  function CounterOf(c: ContactStats, f: Counter): int {
    match f
    case Calls => c.callCount
    case Seconds => c.totalDuration
  }

  function SumOf(cs: seq<ContactStats>, f: Counter): int
    decreases |cs|
  {
    if |cs| == 0 then 0 else SumOf(cs[..|cs| - 1], f) + CounterOf(cs[|cs| - 1], f)
  }

  /** Total call duration over all rows. */
  function RowSeconds(rows: seq<Row>): int
    decreases |rows|
  {
    if |rows| == 0 then 0 else RowSeconds(rows[..|rows| - 1]) + rows[|rows| - 1].duration
  }

  lemma {:induction false} SumOfUpdate(cs: seq<ContactStats>, i: nat, x: ContactStats, f: Counter)
    requires i < |cs|
    ensures SumOf(cs[i := x], f) == SumOf(cs, f) - CounterOf(cs[i], f) + CounterOf(x, f)
    decreases |cs|
  {
    var n := |cs|;
    if i == n - 1 {
      assert cs[i := x][..n - 1] == cs[..n - 1];
    } else {
      assert cs[i := x][..n - 1] == cs[..n - 1][i := x];
      SumOfUpdate(cs[..n - 1], i, x, f);
    }
  }

  /** Overwriting the entry of a listed key replaces that one value in place. */
  lemma ValuesOnUpdate(t: ContactTable, i: nat, x: ContactStats)
    requires KeysInStats(t) && DistinctKeys(t.keys)
    requires i < |t.keys|
    ensures KeysInStats(ContactTable(t.keys, t.stats[t.keys[i] := x]))
    ensures Values(ContactTable(t.keys, t.stats[t.keys[i] := x])) == Values(t)[i := x]
  {
  }

  /** Adding an unlisted key appends its value. */
  lemma ValuesOnAppend(t: ContactTable, key: string, x: ContactStats)
    requires KeysInStats(t) && key !in t.stats
    ensures KeysInStats(ContactTable(t.keys + [key], t.stats[key := x]))
    ensures Values(ContactTable(t.keys + [key], t.stats[key := x])) == Values(t) + [x]
  {
  }

  /** The shape `Tabulate` keeps: each key listed once, exactly the keys of the map. */
  ghost predicate WellKeyed(t: ContactTable) {
    DistinctKeys(t.keys) && forall k :: k in t.stats <==> k in t.keys
  }

  /** A repeat caller: the sums grow by one call and the row's seconds. */
  lemma AddKnownCallSums(t: ContactTable, r: Row, f: Counter)
    requires WellKeyed(t) && ContactKey(r) in t.stats
    ensures KeysInStats(AddCall(t, r))
    ensures SumOf(Values(AddCall(t, r)), f) == SumOf(Values(t), f) + (if f == Calls then 1 else r.duration)
  {
    var key := ContactKey(r);
    var i :| 0 <= i < |t.keys| && t.keys[i] == key;
    var prev := t.stats[key];
    var updated := ContactStats(DisplayName(r), NumberOf(r), prev.totalDuration + r.duration, prev.callCount + 1);
    assert AddCall(t, r) == ContactTable(t.keys, t.stats[t.keys[i] := updated]);
    ValuesOnUpdate(t, i, updated);
    assert Values(t)[i] == prev;
    SumOfUpdate(Values(t), i, updated, f);
  }

  /** A new caller: the sums grow by its one call and its seconds. */
  lemma AddNewCallSums(t: ContactTable, r: Row, f: Counter)
    requires WellKeyed(t) && ContactKey(r) !in t.stats
    ensures KeysInStats(AddCall(t, r))
    ensures SumOf(Values(AddCall(t, r)), f) == SumOf(Values(t), f) + (if f == Calls then 1 else r.duration)
  {
    var key := ContactKey(r);
    var added := ContactStats(DisplayName(r), NumberOf(r), r.duration, 1);
    assert AddCall(t, r) == ContactTable(t.keys + [key], t.stats[key := added]);
    ValuesOnAppend(t, key, added);
    assert (Values(t) + [added])[..|Values(t)|] == Values(t);
  }

  /** Reading one more row adds one call and that row's seconds to the table's totals. */
  lemma AddCallSums(t: ContactTable, r: Row, f: Counter)
    requires WellKeyed(t)
    ensures KeysInStats(AddCall(t, r))
    ensures SumOf(Values(AddCall(t, r)), f) == SumOf(Values(t), f) + (if f == Calls then 1 else r.duration)
  {
    if ContactKey(r) in t.stats {
      AddKnownCallSums(t, r, f);
    } else {
      AddNewCallSums(t, r, f);
    }
  }

  /** Every row is counted once: the call counts add up to the rows read, the durations to their total. */
  lemma {:induction false} TabulateSums(rows: seq<Row>)
    ensures KeysInStats(Tabulate(rows))
    ensures SumOf(Values(Tabulate(rows)), Calls) == |rows|
    ensures SumOf(Values(Tabulate(rows)), Seconds) == RowSeconds(rows)
    decreases |rows|
  {
    TabulateKeys(rows);
    if |rows| > 0 {
      var p := rows[..|rows| - 1];
      TabulateKeys(p);
      TabulateSums(p);
      AddCallSums(Tabulate(p), rows[|rows| - 1], Calls);
      AddCallSums(Tabulate(p), rows[|rows| - 1], Seconds);
    }
  }

  /** Non-increasing total duration. */
  predicate SortedByDuration(cs: seq<ContactStats>) {
    forall i, j :: 0 <= i < j < |cs| ==> cs[i].totalDuration >= cs[j].totalDuration
  }

  /** The entries with total duration `v`, in order. */
  function WithDuration(cs: seq<ContactStats>, v: int): seq<ContactStats>
    decreases |cs|
  {
    if |cs| == 0 then []
    else (if cs[0].totalDuration == v then [cs[0]] else []) + WithDuration(cs[1..], v)
  }

  /** Inserts `c` before the first entry whose duration does not exceed its own. */
  function InsertByDuration(c: ContactStats, cs: seq<ContactStats>): (r: seq<ContactStats>)
    ensures |r| == |cs| + 1
    ensures r[0] == c || (|cs| > 0 && r[0] == cs[0])
    ensures multiset(r) == multiset([c] + cs)
    decreases |cs|
  {
    if |cs| == 0 || c.totalDuration >= cs[0].totalDuration then [c] + cs
    else
      assert cs == [cs[0]] + cs[1..];
      [cs[0]] + InsertByDuration(c, cs[1..])
  }

  /** Inserting adds `c` and nothing else. */
  lemma InsertMembers(c: ContactStats, cs: seq<ContactStats>, x: ContactStats)
    requires x in InsertByDuration(c, cs)
    ensures x == c || x in cs
  {
    assert x in multiset(InsertByDuration(c, cs));
    assert x in multiset([c] + cs);
  }

  /** The head of a sorted list still dominates once a shorter entry is inserted behind it. */
  lemma HeadDominates(c: ContactStats, cs: seq<ContactStats>, x: ContactStats)
    requires SortedByDuration(cs) && |cs| > 0 && c.totalDuration < cs[0].totalDuration
    requires x in InsertByDuration(c, cs[1..])
    ensures cs[0].totalDuration >= x.totalDuration
  {
    InsertMembers(c, cs[1..], x);
    if x != c {
      var k :| 0 <= k < |cs[1..]| && cs[1..][k] == x;
      assert cs[k + 1] == x;
    }
  }

  lemma {:induction false} InsertSorted(c: ContactStats, cs: seq<ContactStats>)
    requires SortedByDuration(cs)
    ensures SortedByDuration(InsertByDuration(c, cs))
    decreases |cs|
  {
    if |cs| > 0 && c.totalDuration < cs[0].totalDuration {
      var rest := InsertByDuration(c, cs[1..]);
      InsertSorted(c, cs[1..]);
      var r := InsertByDuration(c, cs);
      assert r == [cs[0]] + rest;
      forall j | 0 < j < |r|
        ensures cs[0].totalDuration >= r[j].totalDuration
      {
        assert r[j] == rest[j - 1];
        HeadDominates(c, cs, r[j]);
      }
    }
  }

  function OnlyIf(c: ContactStats, v: int): seq<ContactStats> {
    if c.totalDuration == v then [c] else []
  }

  lemma WithDurationCons(c: ContactStats, cs: seq<ContactStats>, v: int)
    ensures WithDuration([c] + cs, v) == OnlyIf(c, v) + WithDuration(cs, v)
  {
    assert ([c] + cs)[1..] == cs;
  }

  lemma {:induction false} InsertStable(c: ContactStats, cs: seq<ContactStats>, v: int)
    ensures WithDuration(InsertByDuration(c, cs), v) == WithDuration([c] + cs, v)
    decreases |cs|
  {
    if |cs| > 0 && c.totalDuration < cs[0].totalDuration {
      var head, tail := cs[0], cs[1..];
      var rest := InsertByDuration(c, tail);
      assert cs == [head] + tail;
      assert OnlyIf(head, v) + OnlyIf(c, v) == OnlyIf(c, v) + OnlyIf(head, v);
      calc {
        WithDuration(InsertByDuration(c, cs), v);
        { assert InsertByDuration(c, cs) == [head] + rest; }
        WithDuration([head] + rest, v);
        { WithDurationCons(head, rest, v); }
        OnlyIf(head, v) + WithDuration(rest, v);
        { InsertStable(c, tail, v); WithDurationCons(c, tail, v); }
        OnlyIf(head, v) + (OnlyIf(c, v) + WithDuration(tail, v));
        (OnlyIf(c, v) + OnlyIf(head, v)) + WithDuration(tail, v);
        { WithDurationCons(head, tail, v); }
        OnlyIf(c, v) + WithDuration(cs, v);
        { WithDurationCons(c, cs, v); }
        WithDuration([c] + cs, v);
      }
    }
  }

  /**
   * `sortedByDescending { it.totalDuration }`: sorted, a permutation of its input, and
   * stable, since the entries of each duration keep their input order.
   */
  function SortByDuration(cs: seq<ContactStats>): (r: seq<ContactStats>)
    ensures |r| == |cs|
    ensures SortedByDuration(r)
    ensures multiset(r) == multiset(cs)
    ensures forall v :: WithDuration(r, v) == WithDuration(cs, v)
    decreases |cs|
  {
    if |cs| == 0 then []
    else
      var rest := SortByDuration(cs[1..]);
      assert cs == [cs[0]] + cs[1..];
      InsertSorted(cs[0], rest);
      forall v ensures WithDuration(InsertByDuration(cs[0], rest), v) == WithDuration(cs, v) {
        InsertStable(cs[0], rest, v);
        WithDurationCons(cs[0], rest, v);
        WithDurationCons(cs[0], cs[1..], v);
      }
      InsertByDuration(cs[0], rest)
  }

  /** Every entry of the table, in first-seen order, with the call and duration sums of all rows. */
  function AllContacts(rows: seq<Row>): (cs: seq<ContactStats>)
    ensures |cs| == |Tabulate(rows).keys|
    ensures SumOf(cs, Calls) == |rows|
    ensures SumOf(cs, Seconds) == RowSeconds(rows)
    ensures forall c :: c in cs ==> c.callCount >= 1
  {
    TabulateSums(rows);
    TabulateIsTableOf(rows);
    Values(Tabulate(rows))
  }

  /** Each entry spells out its own grouping key, so entries with distinct keys differ. */
  lemma ContactsSpellTheirKeys(rows: seq<Row>)
    ensures forall i :: 0 <= i < |AllContacts(rows)| ==>
      AllContacts(rows)[i].name + "|" + AllContacts(rows)[i].phoneNumber == Tabulate(rows).keys[i]
    ensures forall i, j :: 0 <= i < j < |AllContacts(rows)| ==> AllContacts(rows)[i] != AllContacts(rows)[j]
  {
    TabulateIsTableOf(rows);
    var t := Tabulate(rows);
    var cs := AllContacts(rows);
    forall i | 0 <= i < |cs|
      ensures cs[i].name + "|" + cs[i].phoneNumber == t.keys[i]
    {
      var k := t.keys[i];
      assert CallsWith(rows, k) > 0;
      var last := LastWith(rows, k);
      assert ContactKey(last) == k;
    }
  }

  const TakeMessagePrefix := "Requested element count "
  const TakeMessageSuffix := " is less than zero."

  /** Kotlin's `take(n)`: the first `n` elements, or an IllegalArgumentException message when `n` is negative. */
  function Take<T>(s: seq<T>, n: int): (r: Result<seq<T>, string>)
    ensures r.Failure? <==> n < 0
    ensures r.Failure? ==> r.error == TakeMessagePrefix + IntToString(n) + TakeMessageSuffix
    ensures r.Success? ==> |r.value| == Min(n, |s|) && r.value <= s
  {
    if n < 0 then Failure(TakeMessagePrefix + IntToString(n) + TakeMessageSuffix)
    else Success(s[..Min(n, |s|)])
  }

  lemma TopIsSortedPart(all: seq<ContactStats>, sorted: seq<ContactStats>, top: seq<ContactStats>)
    requires SortedByDuration(sorted) && multiset(sorted) == multiset(all) && top <= sorted
    requires forall c :: c in all ==> c.callCount >= 1
    ensures SortedByDuration(top)
    ensures forall c :: c in top ==> c in all && c.callCount >= 1
  {
    forall c | c in top
      ensures c in all
    {
      assert c in multiset(sorted);
    }
  }

  const TopContactsErrorPrefix := "Failed to fetch top contacts: "

  /**
   * `getTopContactsByDuration`: group the rows per contact, sort by total duration
   * descending, keep the first `limit`. A negative limit makes `take` throw, and the
   * promise is rejected with the exception's message.
   */
  function GetTopContactsByDuration(cursor: Option<seq<Row>>, limit: int): (r: Result<seq<ContactStats>, string>)
    ensures r.Failure? <==> limit < 0
    ensures r.Failure? ==> r.error == TopContactsErrorPrefix + TakeMessagePrefix + IntToString(limit) + TakeMessageSuffix
    ensures r.Success? ==> |r.value| == Min(limit, |AllContacts(CursorRows(cursor))|)
    ensures r.Success? ==> SortedByDuration(r.value)
    ensures r.Success? ==> forall c :: c in r.value ==> c in AllContacts(CursorRows(cursor)) && c.callCount >= 1
  {
    var all := AllContacts(CursorRows(cursor));
    var sorted := SortByDuration(all);
    match Take(sorted, limit)
    case Success(top) =>
      TopIsSortedPart(all, sorted, top);
      Success(top)
    case Failure(message) => Failure(TopContactsErrorPrefix + message)
  }

  /** No contact left out of the result talked longer than any contact in it. */
  lemma {:induction false} TopContactsAreLongest(cursor: Option<seq<Row>>, limit: int, c: ContactStats, d: ContactStats)
    requires GetTopContactsByDuration(cursor, limit).Success?
    requires c in GetTopContactsByDuration(cursor, limit).value
    requires d in AllContacts(CursorRows(cursor)) && d !in GetTopContactsByDuration(cursor, limit).value
    ensures c.totalDuration >= d.totalDuration
  {
    var all := AllContacts(CursorRows(cursor));
    var sorted := SortByDuration(all);
    var n := Min(limit, |sorted|);
    var top := GetTopContactsByDuration(cursor, limit).value;
    assert top == sorted[..n];
    assert d in multiset(sorted);
    var j :| 0 <= j < |sorted| && sorted[j] == d;
    var i :| 0 <= i < |top| && top[i] == c;
    assert sorted[i] == c;
  }

  /** The first `n` elements keep a prefix of each duration class. */
  lemma {:induction false} WithDurationPrefix(s: seq<ContactStats>, n: nat, v: int)
    requires n <= |s|
    ensures WithDuration(s[..n], v) <= WithDuration(s, v)
    decreases n
  {
    if n > 0 {
      WithDurationPrefix(s[1..], n - 1, v);
      assert s[..n] == [s[0]] + s[1..][..n - 1];
      assert s == [s[0]] + s[1..];
      WithDurationCons(s[0], s[1..][..n - 1], v);
      WithDurationCons(s[0], s[1..], v);
    }
  }

  /** Contacts with equal total duration are listed in the order they first appear in the log. */
  lemma TopContactsTieOrder(cursor: Option<seq<Row>>, limit: int, v: int)
    requires GetTopContactsByDuration(cursor, limit).Success?
    ensures WithDuration(GetTopContactsByDuration(cursor, limit).value, v) <= WithDuration(AllContacts(CursorRows(cursor)), v)
  {
    var all := AllContacts(CursorRows(cursor));
    var sorted := SortByDuration(all);
    WithDurationPrefix(sorted, Min(limit, |sorted|), v);
  }

  lemma SumOfAppend(a: seq<ContactStats>, b: seq<ContactStats>, f: Counter)
    ensures SumOf(a + b, f) == SumOf(a, f) + SumOf(b, f)
    decreases |b|
  {
    if |b| > 0 {
      assert (a + b)[..|a + b| - 1] == a + b[..|b| - 1];
      SumOfAppend(a, b[..|b| - 1], f);
    } else {
      assert a + b == a;
    }
  }

  /** Taking out the entry at `j` leaves the rest of the multiset. */
  lemma RemoveAtMultiset(b: seq<ContactStats>, j: nat)
    requires j < |b|
    ensures multiset(b) == multiset(b[..j] + b[j + 1..]) + multiset{b[j]}
  {
    assert b == b[..j] + [b[j]] + b[j + 1..];
  }

  /** Taking out the entry at `j` takes its counter off the sum. */
  lemma RemoveAtSum(b: seq<ContactStats>, j: nat, f: Counter)
    requires j < |b|
    ensures SumOf(b, f) == SumOf(b[..j] + b[j + 1..], f) + CounterOf(b[j], f)
  {
    assert b == b[..j] + [b[j]] + b[j + 1..];
    SumOfAppend(b[..j] + [b[j]], b[j + 1..], f);
    SumOfAppend(b[..j], [b[j]], f);
    SumOfAppend(b[..j], b[j + 1..], f);
  }

  /** Sums do not depend on order. */
  lemma {:induction false} SumOfPermutation(a: seq<ContactStats>, b: seq<ContactStats>, f: Counter)
    requires multiset(a) == multiset(b)
    ensures SumOf(a, f) == SumOf(b, f)
    decreases |a|
  {
    if |a| > 0 {
      var x := a[|a| - 1];
      var init := a[..|a| - 1];
      assert a == init + [x];
      assert x in multiset(b);
      var j :| 0 <= j < |b| && b[j] == x;
      var rest := b[..j] + b[j + 1..];
      RemoveAtMultiset(b, j);
      assert multiset(init) + multiset{x} == multiset(rest) + multiset{x};
      forall y ensures multiset(init)[y] == multiset(rest)[y] {
        assert (multiset(init) + multiset{x})[y] == (multiset(rest) + multiset{x})[y];
      }
      assert multiset(init) == multiset(rest);
      SumOfPermutation(init, rest, f);
      RemoveAtSum(b, j, f);
    }
  }

  /** With a limit covering every contact, the result accounts for every call and every second. */
  lemma TopContactsCoverAllCalls(cursor: Option<seq<Row>>, limit: int)
    requires limit >= |AllContacts(CursorRows(cursor))|
    ensures GetTopContactsByDuration(cursor, limit).Success?
    ensures SumOf(GetTopContactsByDuration(cursor, limit).value, Calls) == |CursorRows(cursor)|
    ensures SumOf(GetTopContactsByDuration(cursor, limit).value, Seconds) == RowSeconds(CursorRows(cursor))
  {
    var all := AllContacts(CursorRows(cursor));
    var sorted := SortByDuration(all);
    assert sorted[..|sorted|] == sorted;
    SumOfPermutation(sorted, all, Calls);
    SumOfPermutation(sorted, all, Seconds);
  }
}
