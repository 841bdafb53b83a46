/**
 * The aggregate-stats directive: a two-phase aggregation over a keyed
 * executor-context store. `Execute` folds a batch of rows into running
 * totals of bytes, nanoseconds and rows and writes them back only once the
 * whole batch has parsed; `Terminate` reads the totals back, optionally
 * averages them, converts them to the display units and emits one row.
 */
module AggregateStatsDirective {
  import opened Results
  import opened JavaText
  import opened JavaNumbers
  import opened UnitParser

  const TOTAL_SIZE_KEY: string := "agg_total_size"
  const TOTAL_TIME_KEY: string := "agg_total_time"
  const COUNT_KEY: string := "agg_count"

  /* Rows, arguments and the context store. */

  /** A column of a row: its name and the toString() of its value. */
  datatype Column = Column(name: string, value: string)

  type Row = seq<Column>

  /** Row.getValue(name): the value of the first column with that name, or null when there is none. */
  function GetValue(row: Row, name: string): (v: Option<string>)
    ensures v.None? <==> forall i :: 0 <= i < |row| ==> row[i].name != name
    ensures v.Some? ==> exists i :: 0 <= i < |row| && row[i] == Column(name, v.value)
                                  && forall j :: 0 <= j < i ==> row[j].name != name
  {
    if |row| == 0 then None
    else if row[0].name == name then Some(row[0].value)
    else
      var v := GetValue(row[1..], name);
      assert v.Some? ==> exists i :: 0 <= i < |row[1..]| && row[1..][i] == Column(name, v.value)
                                    && forall j :: 0 <= j < i ==> row[1..][j].name != name;
      if v.Some? then
        var i :| 0 <= i < |row[1..]| && row[1..][i] == Column(name, v.value)
                 && forall j :: 0 <= j < i ==> row[1..][j].name != name;
        assert row[i + 1] == Column(name, v.value);
        assert forall j :: 0 <= j < i + 1 ==> row[j].name != name by {
          forall j | 0 <= j < i + 1
            ensures row[j].name != name
          {
            if j > 0 {
              assert row[j] == row[1..][j - 1];
            }
          }
        }
        v
      else
        assert forall i :: 0 <= i < |row| ==> row[i].name != name by {
          forall i | 0 <= i < |row|
            ensures row[i].name != name
          {
            if i > 0 {
              assert row[i] == row[1..][i - 1];
            }
          }
        }
        v
  }

  /** The directive's arguments, by name. */
  type Arguments = map<string, string>

  /** Arguments.valueOrDefault(name, default). */
  function ValueOrDefault(arguments: Arguments, name: string, default: string): string {
    if name in arguments then arguments[name] else default
  }

  /** ExecutorContext.getOrDefault(key, default) on the store. */
  function Lookup(store: map<string, int>, key: string, default: int): int {
    if key in store then store[key] else default
  }

  /** The executor context: a keyed store that survives between batches. */
  class ExecutorContext {
    var store: map<string, int>

    constructor ()
      ensures store == map[]
    {
      store := map[];
    }

    /** getOrDefault(key, default). */
    function GetOrDefault(key: string, default: int): (v: int)
      reads this
      ensures key in store ==> v == store[key]
      ensures key !in store ==> v == default
    {
      Lookup(store, key, default)
    }

    /** set(key, value): only that key changes. */
    method Set(key: string, value: int)
      modifies this
      ensures store == old(store)[key := value]
    {
      store := store[key := value];
    }
  }

  /* Configuration. */

  /** The seven settings that initialize fixes. */
  datatype Config = Config(
    sourceSizeCol: string, sourceTimeCol: string,
    targetSizeCol: string, targetTimeCol: string,
    sizeUnit: string, timeUnit: string, aggregationType: string)

  /** The four column arguments that define() declares required. */
  predicate HasRequired(arguments: Arguments) {
    && "sourceSizeCol" in arguments && "sourceTimeCol" in arguments
    && "targetSizeCol" in arguments && "targetTimeCol" in arguments
  }

  /** initialize: the column names as given, the size unit upper-cased (default "B"), the time unit and the aggregation type lower-cased (defaults "ns" and "total"). */
  function Configure(arguments: Arguments): (c: Config)
    requires HasRequired(arguments)
    ensures c.sourceSizeCol == arguments["sourceSizeCol"] && c.sourceTimeCol == arguments["sourceTimeCol"]
    ensures c.targetSizeCol == arguments["targetSizeCol"] && c.targetTimeCol == arguments["targetTimeCol"]
    ensures "sizeUnit" !in arguments ==> c.sizeUnit == "B"
    ensures "timeUnit" !in arguments ==> c.timeUnit == "ns"
    ensures "aggregationType" !in arguments ==> c.aggregationType == "total"
    ensures NoLower(c.sizeUnit) && NoUpper(c.timeUnit) && NoUpper(c.aggregationType)
    ensures "sizeUnit" in arguments ==> ToUpperAscii(c.sizeUnit) == ToUpperAscii(arguments["sizeUnit"])
    ensures "timeUnit" in arguments ==> ToLowerAscii(c.timeUnit) == ToLowerAscii(arguments["timeUnit"])
    ensures "aggregationType" in arguments
         ==> ToLowerAscii(c.aggregationType) == ToLowerAscii(arguments["aggregationType"])
  {
    var c := Config(
      arguments["sourceSizeCol"], arguments["sourceTimeCol"],
      arguments["targetSizeCol"], arguments["targetTimeCol"],
      ToUpperAscii(ValueOrDefault(arguments, "sizeUnit", "B")),
      ToLowerAscii(ValueOrDefault(arguments, "timeUnit", "ns")),
      ToLowerAscii(ValueOrDefault(arguments, "aggregationType", "total")));
    UpperIdempotent(ValueOrDefault(arguments, "sizeUnit", "B"));
    LowerIdempotent(ValueOrDefault(arguments, "timeUnit", "ns"));
    LowerIdempotent(ValueOrDefault(arguments, "aggregationType", "total"));
    c
  }

  lemma UpperIdempotent(s: string)
    ensures NoLower(ToUpperAscii(s)) && ToUpperAscii(ToUpperAscii(s)) == ToUpperAscii(s)
  {
  }

  lemma LowerIdempotent(s: string)
    ensures NoUpper(ToLowerAscii(s)) && ToLowerAscii(ToLowerAscii(s)) == ToLowerAscii(s)
  {
  }

  /* The execute phase, as functions of the store. */

  /** The parsed size (bytes) and time (nanoseconds) of one row. */
  datatype Sample = Sample(bytes: int, nanos: int)

  /** The running totals: total bytes, total nanoseconds and the number of rows. */
  datatype Totals = Totals(size: int, time: int, count: int)

  /**
   * One row of the loop: the size column's value must be present and parse,
   * then the time column's value must be present and parse, in that order.
   */
  function ParseRow(row: Row, sizeCol: string, timeCol: string): (r: Result<Sample>)
    ensures r.Success? ==> r.value.bytes >= 0 && r.value.nanos >= 0
  {
    var sizeVal := GetValue(row, sizeCol);
    if sizeVal.None? then Failure(NullValue(sizeCol))
    else
      var bytes :- UnitParser.ParseByteSize(sizeVal.value);
      var timeVal := GetValue(row, timeCol);
      if timeVal.None? then Failure(NullValue(timeCol))
      else
        var nanos :- UnitParser.ParseTimeDuration(timeVal.value);
        Success(Sample(bytes, nanos))
  }

  /** A row parses exactly when both columns are present and both values parse, and a missing size column is reported first. */
  lemma ParseRowSucceedsIff(row: Row, sizeCol: string, timeCol: string)
    ensures GetValue(row, sizeCol).None? ==> ParseRow(row, sizeCol, timeCol) == Failure(NullValue(sizeCol))
    ensures ParseRow(row, sizeCol, timeCol).Success? <==>
      && GetValue(row, sizeCol).Some? && UnitParser.ParseByteSize(GetValue(row, sizeCol).value).Success?
      && GetValue(row, timeCol).Some? && UnitParser.ParseTimeDuration(GetValue(row, timeCol).value).Success?
    ensures ParseRow(row, sizeCol, timeCol).Success? ==>
      ParseRow(row, sizeCol, timeCol).value
        == Sample(UnitParser.ParseByteSize(GetValue(row, sizeCol).value).value,
                  UnitParser.ParseTimeDuration(GetValue(row, timeCol).value).value)
  {
  }

  /** Every successfully parsed sample is non-negative. */
  predicate NonNegative(results: seq<Result<Sample>>) {
    forall i :: 0 <= i < |results| && results[i].Success? ==> results[i].value.bytes >= 0 && results[i].value.nanos >= 0
  }

  /**
   * The outcome of parsing each row of the batch. Parsing is pure, so
   * folding over these outcomes and stopping at the first failure behaves
   * exactly like the loop that parses row by row and throws at the first bad one.
   */
  function Parses(rows: seq<Row>, sizeCol: string, timeCol: string): (r: seq<Result<Sample>>)
    ensures |r| == |rows| && NonNegative(r)
    ensures forall i :: 0 <= i < |rows| ==> r[i] == ParseRow(rows[i], sizeCol, timeCol)
  {
    seq(|rows|, i requires 0 <= i < |rows| => ParseRow(rows[i], sizeCol, timeCol))
  }

  lemma ParsesConcat(b1: seq<Row>, b2: seq<Row>, sizeCol: string, timeCol: string)
    ensures Parses(b1 + b2, sizeCol, timeCol) == Parses(b1, sizeCol, timeCol) + Parses(b2, sizeCol, timeCol)
  {
    var whole := Parses(b1 + b2, sizeCol, timeCol);
    var parts := Parses(b1, sizeCol, timeCol) + Parses(b2, sizeCol, timeCol);
    assert |whole| == |parts|;
    forall i | 0 <= i < |whole|
      ensures whole[i] == parts[i]
    {
      if i < |b1| {
        assert (b1 + b2)[i] == b1[i];
      } else {
        assert (b1 + b2)[i] == b2[i - |b1|];
      }
    }
  }

  function Add(t: Totals, s: Sample): Totals {
    Totals(t.size + s.bytes, t.time + s.nanos, t.count + 1)
  }

  /** The loop of execute: each row adds its parsed values and one to the count; the first failing row ends the fold with its error. */
  function Fold(acc: Totals, results: seq<Result<Sample>>): (r: Result<Totals>)
    ensures r.Success? ==> r.value.count == acc.count + |results|
    ensures r.Failure? ==> exists i :: 0 <= i < |results| && results[i] == Failure(r.error)
    decreases |results|
  {
    if |results| == 0 then Success(acc)
    else
      var s :- results[0];
      var r := Fold(Add(acc, s), results[1..]);
      assert r.Failure? ==> exists i :: 0 <= i < |results| && results[i] == Failure(r.error) by {
        if r.Failure? {
          var i :| 0 <= i < |results[1..]| && results[1..][i] == Failure(r.error);
          assert results[i + 1] == Failure(r.error);
        }
      }
      r
  }

  /** One step of the fold. */
  lemma FoldStep(acc: Totals, results: seq<Result<Sample>>)
    requires |results| > 0
    ensures results[0].Failure? ==> Fold(acc, results) == Failure(results[0].error)
    ensures results[0].Success? ==> Fold(acc, results) == Fold(Add(acc, results[0].value), results[1..])
  {
  }

  /** The step of the fold at position i of the batch, and its end. */
  lemma FoldAt(acc: Totals, results: seq<Result<Sample>>, i: nat)
    requires i <= |results|
    ensures i == |results| ==> Fold(acc, results[i..]) == Success(acc)
    ensures i < |results| && results[i].Failure? ==> Fold(acc, results[i..]) == Failure(results[i].error)
    ensures i < |results| && results[i].Success?
         ==> Fold(acc, results[i..]) == Fold(Add(acc, results[i].value), results[i + 1..])
  {
    if i < |results| {
      assert results[i..][0] == results[i] && results[i..][1..] == results[i + 1..];
      FoldStep(acc, results[i..]);
    }
  }

  /** The totals as read from the store at the start of execute: missing keys read as 0. */
  function Loaded(store: map<string, int>): Totals {
    Totals(Lookup(store, TOTAL_SIZE_KEY, 0), Lookup(store, TOTAL_TIME_KEY, 0), Lookup(store, COUNT_KEY, 0))
  }

  /** The store after the three writes at the end of execute. */
  function Saved(store: map<string, int>, t: Totals): (s: map<string, int>)
    ensures Loaded(s) == t
  {
    store[TOTAL_SIZE_KEY := t.size][TOTAL_TIME_KEY := t.time][COUNT_KEY := t.count]
  }

  /** Execute's writes touch only its three keys: every other entry of the store is kept. */
  lemma SavedKeepsOtherKeys(store: map<string, int>, t: Totals, k: string)
    requires k in store && k != TOTAL_SIZE_KEY && k != TOTAL_TIME_KEY && k != COUNT_KEY
    ensures k in Saved(store, t) && Saved(store, t)[k] == store[k]
  {
  }

  /** The whole of execute on a store: the new store, or the first failing row's error. */
  function ExecuteStore(store: map<string, int>, sizeCol: string, timeCol: string, rows: seq<Row>): (r: Result<map<string, int>>)
    ensures r.Success? ==> Loaded(r.value).count == Loaded(store).count + |rows|
    ensures r.Failure? ==> exists i :: 0 <= i < |rows| && ParseRow(rows[i], sizeCol, timeCol) == Failure(r.error)
  {
    var t :- Fold(Loaded(store), Parses(rows, sizeCol, timeCol));
    Success(Saved(store, t))
  }

  /** A fold that succeeds with t is saved as t. */
  lemma ExecuteOf(store: map<string, int>, sizeCol: string, timeCol: string, rows: seq<Row>, t: Totals)
    requires Fold(Loaded(store), Parses(rows, sizeCol, timeCol)) == Success(t)
    ensures ExecuteStore(store, sizeCol, timeCol, rows).Success?
    ensures Loaded(ExecuteStore(store, sizeCol, timeCol, rows).value) == t
  {
  }

  /* An independent reference: collect every sample first, then sum. */

  /** All the samples, or the first failure. */
  function Collect(results: seq<Result<Sample>>): (r: Result<seq<Sample>>)
    ensures r.Success? ==> |r.value| == |results|
    decreases |results|
  {
    if |results| == 0 then Success([])
    else
      var s :- results[0];
      var rest :- Collect(results[1..]);
      Success([s] + rest)
  }

  function SumBytes(samples: seq<Sample>): int {
    if |samples| == 0 then 0 else samples[0].bytes + SumBytes(samples[1..])
  }

  function SumNanos(samples: seq<Sample>): int {
    if |samples| == 0 then 0 else samples[0].nanos + SumNanos(samples[1..])
  }

  /** The totals after adding every sample. */
  function AddAll(acc: Totals, samples: seq<Sample>): Totals {
    Totals(acc.size + SumBytes(samples), acc.time + SumNanos(samples), acc.count + |samples|)
  }

  /** The fold adds exactly the sums of the parsed sizes and times, and the number of rows, and fails exactly when some row fails, with the first such row's error. */
  lemma {:induction false} FoldIsSum(acc: Totals, results: seq<Result<Sample>>)
    ensures Fold(acc, results).Success? <==> Collect(results).Success?
    ensures Fold(acc, results).Failure? ==> Fold(acc, results).error == Collect(results).error
    ensures Collect(results).Success? ==> Fold(acc, results).value == AddAll(acc, Collect(results).value)
    decreases |results|
  {
    if |results| > 0 {
      FoldStep(acc, results);
      var s := results[0];
      if s.Success? {
        FoldIsSum(Add(acc, s.value), results[1..]);
        var rest := Collect(results[1..]);
        if rest.Success? {
          var samples := [s.value] + rest.value;
          assert Collect(results) == Success(samples);
          assert samples[1..] == rest.value;
          assert AddAll(acc, samples) == AddAll(Add(acc, s.value), rest.value);
        }
      }
    }
  }

  /** Execute's new totals are the old ones plus the sums over the batch. */
  lemma ExecuteIsSum(store: map<string, int>, sizeCol: string, timeCol: string, rows: seq<Row>)
    ensures ExecuteStore(store, sizeCol, timeCol, rows).Success? <==> Collect(Parses(rows, sizeCol, timeCol)).Success?
    ensures Collect(Parses(rows, sizeCol, timeCol)).Success? ==>
      Loaded(ExecuteStore(store, sizeCol, timeCol, rows).value)
        == AddAll(Loaded(store), Collect(Parses(rows, sizeCol, timeCol)).value)
  {
    FoldIsSum(Loaded(store), Parses(rows, sizeCol, timeCol));
  }

  /** Folding b1 ++ b2 is folding b1 and then b2. */
  lemma {:induction false} FoldConcat(acc: Totals, b1: seq<Result<Sample>>, b2: seq<Result<Sample>>)
    ensures Fold(acc, b1 + b2)
         == (match Fold(acc, b1)
             case Success(mid) => Fold(mid, b2)
             case Failure(e) => Failure(e))
    decreases |b1|
  {
    if |b1| == 0 {
      assert b1 + b2 == b2;
    } else {
      assert (b1 + b2)[0] == b1[0];
      assert (b1 + b2)[1..] == b1[1..] + b2;
      FoldStep(acc, b1 + b2);
      FoldStep(acc, b1);
      if b1[0].Success? {
        FoldConcat(Add(acc, b1[0].value), b1[1..], b2);
      }
    }
  }

  /** Running execute on b1 and then on b2 leaves the same store as running it once on b1 ++ b2. */
  lemma ExecuteConcat(store: map<string, int>, b1: seq<Row>, b2: seq<Row>, sizeCol: string, timeCol: string)
    ensures ExecuteStore(store, sizeCol, timeCol, b1).Success? ==>
      ExecuteStore(store, sizeCol, timeCol, b1 + b2)
        == ExecuteStore(ExecuteStore(store, sizeCol, timeCol, b1).value, sizeCol, timeCol, b2)
    ensures ExecuteStore(store, sizeCol, timeCol, b1).Failure? ==>
      ExecuteStore(store, sizeCol, timeCol, b1 + b2) == ExecuteStore(store, sizeCol, timeCol, b1)
  {
    var p1, p2 := Parses(b1, sizeCol, timeCol), Parses(b2, sizeCol, timeCol);
    ParsesConcat(b1, b2, sizeCol, timeCol);
    FoldConcat(Loaded(store), p1, p2);
    SavedTwice(store, Fold(Loaded(store), p1), p2);
  }

  /** Saving the totals after a second fold over a saved store is saving them once. */
  lemma SavedTwice(store: map<string, int>, f1: Result<Totals>, p2: seq<Result<Sample>>)
    ensures f1.Success? && Fold(f1.value, p2).Success? ==>
      Saved(Saved(store, f1.value), Fold(f1.value, p2).value) == Saved(store, Fold(f1.value, p2).value)
  {
  }

  /* The order of the rows does not matter. */

  /** A parsed sample can be taken out of the batch and added first: the fold, and the error of a failing one, are unchanged. */
  lemma {:induction false} FoldMove(acc: Totals, s: Sample, a: seq<Result<Sample>>, b: seq<Result<Sample>>)
    ensures Fold(acc, a + [Success(s)] + b) == Fold(Add(acc, s), a + b)
    decreases |a|
  {
    var whole := a + [Success(s)] + b;
    if |a| == 0 {
      assert whole[0] == Success(s) && whole[1..] == b;
      assert a + b == b;
      FoldStep(acc, whole);
    } else {
      var x := a[0];
      assert whole[0] == x && whole[1..] == a[1..] + [Success(s)] + b;
      assert (a + b)[0] == x && (a + b)[1..] == a[1..] + b;
      FoldStep(acc, whole);
      FoldStep(Add(acc, s), a + b);
      if x.Success? {
        FoldMove(Add(acc, x.value), s, a[1..], b);
        assert Add(Add(acc, x.value), s) == Add(Add(acc, s), x.value);
      }
    }
  }

  /** A batch with a failing row anywhere in it fails. */
  lemma FoldFailsAt(acc: Totals, a: seq<Result<Sample>>, f: Result<Sample>, b: seq<Result<Sample>>)
    requires f.Failure?
    ensures Fold(acc, a + [f] + b).Failure?
  {
    assert a + [f] + b == a + ([f] + b);
    FoldConcat(acc, a, [f] + b);
    if Fold(acc, a).Success? {
      FoldStep(Fold(acc, a).value, [f] + b);
    }
  }

  /** A reordering of a non-empty batch holds its first row somewhere, around a reordering of the rest. */
  lemma FindFirst(rows: seq<Row>, reordered: seq<Row>) returns (before: seq<Row>, after: seq<Row>)
    requires |rows| > 0 && multiset(rows) == multiset(reordered)
    ensures reordered == before + [rows[0]] + after
    ensures multiset(rows[1..]) == multiset(before + after)
  {
    var e := rows[0];
    assert e in multiset(reordered);
    var i :| 0 <= i < |reordered| && reordered[i] == e;
    before, after := reordered[..i], reordered[i + 1..];
    assert reordered == before + [e] + after;
    assert rows == [e] + rows[1..];
    var rest := multiset(before) + multiset(after);
    assert multiset(before + after) == rest;
    assert multiset(rows) == multiset(rows[1..]) + multiset{e};
    assert multiset(reordered) == rest + multiset{e};
    assert multiset(rows[1..]) == rest by {
      assert multiset(rows[1..]) + multiset{e} == rest + multiset{e};
      forall r: Row
        ensures multiset(rows[1..])[r] == rest[r]
      {
        assert (multiset(rows[1..]) + multiset{e})[r] == (rest + multiset{e})[r];
      }
    }
  }

  /** Parsing a batch around one row parses the pieces around that row's outcome. */
  lemma ParsesAround(before: seq<Row>, e: Row, after: seq<Row>, sizeCol: string, timeCol: string)
    ensures Parses(before + [e] + after, sizeCol, timeCol)
         == Parses(before, sizeCol, timeCol) + [ParseRow(e, sizeCol, timeCol)] + Parses(after, sizeCol, timeCol)
    ensures Parses(before + after, sizeCol, timeCol) == Parses(before, sizeCol, timeCol) + Parses(after, sizeCol, timeCol)
  {
    ParsesConcat(before + [e], after, sizeCol, timeCol);
    ParsesConcat(before, [e], sizeCol, timeCol);
    ParsesConcat(before, after, sizeCol, timeCol);
  }

  /** Reordering the rows of a batch changes neither whether the fold succeeds nor the totals it reaches. */
  lemma {:induction false} FoldPermutation(acc: Totals, rows: seq<Row>, reordered: seq<Row>, sizeCol: string, timeCol: string)
    requires multiset(rows) == multiset(reordered)
    ensures Fold(acc, Parses(rows, sizeCol, timeCol)).Success? <==> Fold(acc, Parses(reordered, sizeCol, timeCol)).Success?
    ensures Fold(acc, Parses(rows, sizeCol, timeCol)).Success? ==>
      Fold(acc, Parses(rows, sizeCol, timeCol)).value == Fold(acc, Parses(reordered, sizeCol, timeCol)).value
    decreases |rows|
  {
    if |rows| == 0 {
      assert |reordered| == |multiset(reordered)| == 0;
      assert reordered == rows;
    } else {
      var before, after := FindFirst(rows, reordered);
      var p := ParseRow(rows[0], sizeCol, timeCol);
      ParsesAround(before, rows[0], after, sizeCol, timeCol);
      var pb, pa := Parses(before, sizeCol, timeCol), Parses(after, sizeCol, timeCol);
      var pr := Parses(rows, sizeCol, timeCol);
      assert pr[0] == p && pr[1..] == Parses(rows[1..], sizeCol, timeCol);
      FoldStep(acc, pr);
      if p.Failure? {
        FoldFailsAt(acc, pb, p, pa);
      } else {
        FoldPermutation(Add(acc, p.value), rows[1..], before + after, sizeCol, timeCol);
        FoldMove(acc, p.value, pb, pa);
      }
    }
  }

  /**
   * Execute does not depend on the order of the rows: a reordered batch fails
   * exactly when the batch does (the row reported may differ), and otherwise
   * leaves the same store.
   */
  lemma ExecutePermutation(store: map<string, int>, sizeCol: string, timeCol: string, rows: seq<Row>, reordered: seq<Row>)
    requires multiset(rows) == multiset(reordered)
    ensures ExecuteStore(store, sizeCol, timeCol, rows).Success? <==> ExecuteStore(store, sizeCol, timeCol, reordered).Success?
    ensures ExecuteStore(store, sizeCol, timeCol, rows).Success? ==>
      ExecuteStore(store, sizeCol, timeCol, rows) == ExecuteStore(store, sizeCol, timeCol, reordered)
  {
    FoldPermutation(Loaded(store), rows, reordered, sizeCol, timeCol);
  }

  /** Two batches executed as b1 ++ b2 or as b2 ++ b1 leave the same store. */
  lemma ExecuteSwap(store: map<string, int>, b1: seq<Row>, b2: seq<Row>, sizeCol: string, timeCol: string)
    ensures ExecuteStore(store, sizeCol, timeCol, b1 + b2).Success? <==> ExecuteStore(store, sizeCol, timeCol, b2 + b1).Success?
    ensures ExecuteStore(store, sizeCol, timeCol, b1 + b2).Success? ==>
      ExecuteStore(store, sizeCol, timeCol, b1 + b2) == ExecuteStore(store, sizeCol, timeCol, b2 + b1)
  {
    assert multiset(b1 + b2) == multiset(b2 + b1);
    ExecutePermutation(store, sizeCol, timeCol, b1 + b2, b2 + b1);
  }

  /** The store invariant: non-negative totals and count, and no totals without rows. */
  predicate Consistent(t: Totals) {
    && t.count >= 0 && t.size >= 0 && t.time >= 0
    && (t.count == 0 ==> t.size == 0 && t.time == 0)
  }

  /** A successful fold over non-negative samples keeps the invariant and never lowers a total. */
  lemma {:induction false} FoldKeepsConsistent(acc: Totals, results: seq<Result<Sample>>)
    requires Consistent(acc) && NonNegative(results)
    ensures Fold(acc, results).Success? ==>
      && Consistent(Fold(acc, results).value)
      && Fold(acc, results).value.size >= acc.size && Fold(acc, results).value.time >= acc.time
    decreases |results|
  {
    if |results| > 0 && results[0].Success? {
      FoldStep(acc, results);
      assert NonNegative(results[1..]) by {
        forall i | 0 <= i < |results[1..]| && results[1..][i].Success?
          ensures results[1..][i].value.bytes >= 0 && results[1..][i].value.nanos >= 0
        {
          assert results[1..][i] == results[i + 1];
        }
      }
      FoldKeepsConsistent(Add(acc, results[0].value), results[1..]);
    }
  }

  /** The invariant holds of an empty store and is kept by every successful execute; the totals never decrease. */
  lemma ExecuteKeepsConsistent(store: map<string, int>, sizeCol: string, timeCol: string, rows: seq<Row>)
    requires Consistent(Loaded(store))
    ensures ExecuteStore(store, sizeCol, timeCol, rows).Success? ==>
      var next := Loaded(ExecuteStore(store, sizeCol, timeCol, rows).value);
      Consistent(next) && next.size >= Loaded(store).size && next.time >= Loaded(store).time
  {
    FoldKeepsConsistent(Loaded(store), Parses(rows, sizeCol, timeCol));
  }

  lemma EmptyStoreConsistent()
    ensures Consistent(Loaded(map[]))
  {
  }

  /* The terminate phase. */

  /** (long) of a quotient of non-negative longs is the integer quotient. */
  lemma LongQuotientOfNat(a: int, b: int)
    requires a >= 0 && b > 0
    ensures LongQuotient(a, b) == a / b
  {
    TruncQuotient(a, b);
  }

  /** The value handed to the converter: the raw total, or (long) (total / (double) count) in average mode. */
  function Aggregated(total: int, count: int, aggregationType: string): int {
    if aggregationType == "average" then LongQuotient(total, count) else total
  }

  /** convertBytes then the cast to long, as the missing convertByteSize is read here. */
  function ConvertedSize(bytes: int, unit: string): (r: Result<int>)
    ensures r.Success? <==> ToUpperAscii(unit) in SIZE_UNITS
    ensures r.Failure? ==> r.error == InvalidByteUnit(ToUpperAscii(unit))
  {
    var v :- ConvertBytes(bytes, unit);
    Success(TruncReal(v))
  }

  /** convertTime then the cast to long, as the missing convertTimeDuration is read here. */
  function ConvertedTime(nanos: int, unit: string): (r: Result<int>)
    ensures r.Success? <==> ToLowerAscii(unit) in TIME_UNITS
    ensures r.Failure? ==> r.error == InvalidTimeUnit(ToLowerAscii(unit))
  {
    var v :- ConvertTime(nanos, unit);
    Success(TruncReal(v))
  }

  /** For a non-negative count the conversion is integer division by the unit's multiplier. */
  lemma ConvertedSizeValue(bytes: nat, unit: string)
    requires ToUpperAscii(unit) in SIZE_UNITS
    ensures ConvertedSize(bytes, unit) == Success(bytes / SizeMultiplier(ToUpperAscii(unit)))
  {
    var m := SizeMultiplier(ToUpperAscii(unit));
    var v := ConvertBytes(bytes, unit).value;
    assert v == bytes as real / m as real;
    TruncQuotient(bytes, m);
  }

  lemma ConvertedTimeValue(nanos: nat, unit: string)
    requires ToLowerAscii(unit) in TIME_UNITS
    ensures ConvertedTime(nanos, unit) == Success(nanos / TimeMultiplier(ToLowerAscii(unit)))
  {
    var m := TimeMultiplier(ToLowerAscii(unit));
    var v := ConvertTime(nanos, unit).value;
    assert v == nanos as real / m as real;
    TruncQuotient(nanos, m);
  }

  /** terminate: one row holding the converted size and time, each followed by its unit; the size conversion fails first. */
  function Summary(cfg: Config, store: map<string, int>): (r: Result<Row>)
    ensures r.Success? <==> ToUpperAscii(cfg.sizeUnit) in SIZE_UNITS && ToLowerAscii(cfg.timeUnit) in TIME_UNITS
    ensures ToUpperAscii(cfg.sizeUnit) !in SIZE_UNITS ==> r == Failure(InvalidByteUnit(ToUpperAscii(cfg.sizeUnit)))
    ensures ToUpperAscii(cfg.sizeUnit) in SIZE_UNITS && ToLowerAscii(cfg.timeUnit) !in TIME_UNITS
         ==> r == Failure(InvalidTimeUnit(ToLowerAscii(cfg.timeUnit)))
    ensures r.Success? ==>
      && |r.value| == 2
      && r.value[0].name == cfg.targetSizeCol && EndsWith(r.value[0].value, cfg.sizeUnit)
      && r.value[1].name == cfg.targetTimeCol && EndsWith(r.value[1].value, cfg.timeUnit)
  {
    var totalSize := Lookup(store, TOTAL_SIZE_KEY, 0);
    var totalTime := Lookup(store, TOTAL_TIME_KEY, 0);
    var count := Lookup(store, COUNT_KEY, 1);
    var convertedSize :- ConvertedSize(Aggregated(totalSize, count, cfg.aggregationType), cfg.sizeUnit);
    var convertedTime :- ConvertedTime(Aggregated(totalTime, count, cfg.aggregationType), cfg.timeUnit);
    var sizeText := IntToString(convertedSize) + cfg.sizeUnit;
    var timeText := IntToString(convertedTime) + cfg.timeUnit;
    assert sizeText[|sizeText| - |cfg.sizeUnit|..] == cfg.sizeUnit;
    assert timeText[|timeText| - |cfg.timeUnit|..] == cfg.timeUnit;
    Success([Column(cfg.targetSizeCol, sizeText), Column(cfg.targetTimeCol, timeText)])
  }

  /** The output row of terminate in terms of the two displayed numbers. */
  predicate ShowsRow(r: Result<Row>, cfg: Config, size: int, time: int) {
    r == Success([Column(cfg.targetSizeCol, IntToString(size) + cfg.sizeUnit),
                  Column(cfg.targetTimeCol, IntToString(time) + cfg.timeUnit)])
  }

  /** Total mode: the stored totals divided by the display units' multipliers. */
  lemma SummaryTotal(cfg: Config, store: map<string, int>)
    requires cfg.aggregationType != "average"
    requires ToUpperAscii(cfg.sizeUnit) in SIZE_UNITS && ToLowerAscii(cfg.timeUnit) in TIME_UNITS
    requires Consistent(Loaded(store))
    ensures ShowsRow(Summary(cfg, store), cfg,
                     Loaded(store).size / SizeMultiplier(ToUpperAscii(cfg.sizeUnit)),
                     Loaded(store).time / TimeMultiplier(ToLowerAscii(cfg.timeUnit)))
  {
    ConvertedSizeValue(Loaded(store).size, cfg.sizeUnit);
    ConvertedTimeValue(Loaded(store).time, cfg.timeUnit);
  }

  /** Average mode with rows seen: each total divided by the count, truncated, then divided by the unit's multiplier. */
  lemma SummaryAverage(cfg: Config, store: map<string, int>)
    requires cfg.aggregationType == "average"
    requires ToUpperAscii(cfg.sizeUnit) in SIZE_UNITS && ToLowerAscii(cfg.timeUnit) in TIME_UNITS
    requires Consistent(Loaded(store)) && Loaded(store).count > 0
    ensures ShowsRow(Summary(cfg, store), cfg,
                     Loaded(store).size / Loaded(store).count / SizeMultiplier(ToUpperAscii(cfg.sizeUnit)),
                     Loaded(store).time / Loaded(store).count / TimeMultiplier(ToLowerAscii(cfg.timeUnit)))
  {
    var t := Loaded(store);
    assert Lookup(store, COUNT_KEY, 1) == t.count;
    LongQuotientOfNat(t.size, t.count);
    LongQuotientOfNat(t.time, t.count);
    DivNonNegative(t.size, t.count);
    DivNonNegative(t.time, t.count);
    ConvertedSizeValue(t.size / t.count, cfg.sizeUnit);
    ConvertedTimeValue(t.time / t.count, cfg.timeUnit);
  }

  /**
   * A consistent store with no rows counted shows zeros in either mode: the
   * count reads as 1 when absent, and 0 / 0.0 is NaN, which the cast turns into 0.
   */
  lemma SummaryWithoutRows(cfg: Config, store: map<string, int>)
    requires ToUpperAscii(cfg.sizeUnit) in SIZE_UNITS && ToLowerAscii(cfg.timeUnit) in TIME_UNITS
    requires Consistent(Loaded(store)) && Loaded(store).count == 0
    ensures ShowsRow(Summary(cfg, store), cfg, 0, 0)
  {
    ConvertedSizeValue(0, cfg.sizeUnit);
    ConvertedTimeValue(0, cfg.timeUnit);
    assert Aggregated(0, Lookup(store, COUNT_KEY, 1), cfg.aggregationType) == 0;
  }

  /** A run of execute calls, one per batch, on the same store; the first failing batch ends the run. */
  function ExecuteBatches(store: map<string, int>, sizeCol: string, timeCol: string, batches: seq<seq<Row>>): Result<map<string, int>>
    decreases |batches|
  {
    if |batches| == 0 then Success(store)
    else
      var next :- ExecuteStore(store, sizeCol, timeCol, batches[0]);
      ExecuteBatches(next, sizeCol, timeCol, batches[1..])
  }

  /** Executing only empty batches on a store that has counted no rows succeeds and leaves a store that still has counted none. */
  lemma {:induction false} EmptyBatchesCountNothing(store: map<string, int>, sizeCol: string, timeCol: string, batches: seq<seq<Row>>)
    requires Consistent(Loaded(store)) && Loaded(store).count == 0
    requires forall i :: 0 <= i < |batches| ==> |batches[i]| == 0
    ensures ExecuteBatches(store, sizeCol, timeCol, batches).Success?
    ensures Consistent(Loaded(ExecuteBatches(store, sizeCol, timeCol, batches).value))
    ensures Loaded(ExecuteBatches(store, sizeCol, timeCol, batches).value).count == 0
    decreases |batches|
  {
    if |batches| > 0 {
      assert Parses(batches[0], sizeCol, timeCol) == [];
      ExecuteOf(store, sizeCol, timeCol, batches[0], Loaded(store));
      var next := ExecuteStore(store, sizeCol, timeCol, batches[0]).value;
      EmptyBatchesCountNothing(next, sizeCol, timeCol, batches[1..]);
    }
  }

  /** A run that never executed, or executed only empty batches, shows "0" in each unit. */
  lemma EmptyRunShowsZero(cfg: Config, batches: seq<seq<Row>>)
    requires forall i :: 0 <= i < |batches| ==> |batches[i]| == 0
    requires ToUpperAscii(cfg.sizeUnit) in SIZE_UNITS && ToLowerAscii(cfg.timeUnit) in TIME_UNITS
    ensures ExecuteBatches(map[], cfg.sourceSizeCol, cfg.sourceTimeCol, batches).Success?
    ensures ShowsRow(Summary(cfg, ExecuteBatches(map[], cfg.sourceSizeCol, cfg.sourceTimeCol, batches).value), cfg, 0, 0)
  {
    EmptyStoreConsistent();
    EmptyBatchesCountNothing(map[], cfg.sourceSizeCol, cfg.sourceTimeCol, batches);
    SummaryWithoutRows(cfg, ExecuteBatches(map[], cfg.sourceSizeCol, cfg.sourceTimeCol, batches).value);
  }

  /* A worked example: two rows, shown in kilobytes and seconds. */

  lemma TwoKilobytes(s: string)
    requires s == "2KB"
    ensures ParseByteSize(s) == Success(2048)
  {
    var u := s[1..];
    assert s == NatToDigits(2) + u;
    SizeEntry(1, u);
    PlainSizeNoSpace(2, u);
  }

  lemma OneMegabyte(s: string)
    requires s == "1MB"
    ensures ParseByteSize(s) == Success(1_048_576)
  {
    var u := s[1..];
    assert s == NatToDigits(1) + u;
    SizeEntry(2, u);
    PlainSizeNoSpace(1, u);
  }

  lemma HalfSecond(s: string)
    requires s == "500ms"
    ensures ParseTimeDuration(s) == Success(500_000_000)
  {
    var u := s[3..];
    assert s == NatToDigits(500) + u;
    TimeEntry(2, u);
    PlainTimeNoSpace(500, u);
  }

  lemma OneSecond(s: string)
    requires s == "1s"
    ensures ParseTimeDuration(s) == Success(1_000_000_000)
  {
    var u := s[1..];
    assert s == NatToDigits(1) + u;
    TimeEntry(3, u);
    PlainTimeNoSpace(1, u);
  }

  /** In a row of two differently named columns, each name finds its own column. */
  lemma TwoColumns(row: Row, a: string, x: string, b: string, y: string)
    requires row == [Column(a, x), Column(b, y)] && a != b
    ensures GetValue(row, a) == Some(x) && GetValue(row, b) == Some(y)
  {
    assert row[1..] == [Column(b, y)];
  }

  /** A row holding a size column and a time column parses to their two values. */
  lemma ExampleRow(row: Row, sizeCol: string, sizeText: string, timeCol: string, timeText: string, bytes: int, nanos: int)
    requires row == [Column(sizeCol, sizeText), Column(timeCol, timeText)] && sizeCol != timeCol
    requires ParseByteSize(sizeText) == Success(bytes) && ParseTimeDuration(timeText) == Success(nanos)
    ensures ParseRow(row, sizeCol, timeCol) == Success(Sample(bytes, nanos))
  {
    TwoColumns(row, sizeCol, sizeText, timeCol, timeText);
    ParseRowSucceedsIff(row, sizeCol, timeCol);
  }

  lemma FirstRow(row: Row)
    requires row == [Column("size", "2KB"), Column("time", "500ms")]
    ensures ParseRow(row, "size", "time") == Success(Sample(2048, 500_000_000))
  {
    TwoKilobytes(row[0].value);
    HalfSecond(row[1].value);
    ExampleRow(row, "size", row[0].value, "time", row[1].value, 2048, 500_000_000);
  }

  lemma SecondRow(row: Row)
    requires row == [Column("size", "1MB"), Column("time", "1s")]
    ensures ParseRow(row, "size", "time") == Success(Sample(1_048_576, 1_000_000_000))
  {
    OneMegabyte(row[0].value);
    OneSecond(row[1].value);
    ExampleRow(row, "size", row[0].value, "time", row[1].value, 1_048_576, 1_000_000_000);
  }

  /** Rows ("2KB", "500ms") and ("1MB", "1s") add up to 1026 KiB, 1.5 seconds and two rows. */
  lemma ExampleBatch(first: Row, second: Row)
    requires first == [Column("size", "2KB"), Column("time", "500ms")]
    requires second == [Column("size", "1MB"), Column("time", "1s")]
    ensures ExecuteStore(map[], "size", "time", [first, second]).Success?
    ensures Loaded(ExecuteStore(map[], "size", "time", [first, second]).value) == Totals(1_050_624, 1_500_000_000, 2)
  {
    var a, b := Success(Sample(2048, 500_000_000)), Success(Sample(1_048_576, 1_000_000_000));
    FirstRow(first);
    SecondRow(second);
    TwoParses(first, second, "size", "time", a, b);
    ExampleFold([a, b]);
    ExecuteOf(map[], "size", "time", [first, second], Totals(1_050_624, 1_500_000_000, 2));
  }

  lemma TwoParses(first: Row, second: Row, sizeCol: string, timeCol: string, a: Result<Sample>, b: Result<Sample>)
    requires ParseRow(first, sizeCol, timeCol) == a && ParseRow(second, sizeCol, timeCol) == b
    ensures Parses([first, second], sizeCol, timeCol) == [a, b]
  {
  }

  /** The fold over the two parsed rows. */
  lemma ExampleFold(results: seq<Result<Sample>>)
    requires results == [Success(Sample(2048, 500_000_000)), Success(Sample(1_048_576, 1_000_000_000))]
    ensures Fold(Totals(0, 0, 0), results) == Success(Totals(1_050_624, 1_500_000_000, 2))
  {
    assert results[0..] == results;
    FoldAt(Totals(0, 0, 0), results, 0);
    FoldAt(Totals(2048, 500_000_000, 1), results, 1);
    FoldAt(Totals(1_050_624, 1_500_000_000, 2), results, 2);
  }

  /** The display units KB and s divide by 1024 and by 10^9. */
  lemma ExampleUnits(cfg: Config)
    requires cfg.sizeUnit == "KB" && cfg.timeUnit == "s"
    ensures ToUpperAscii(cfg.sizeUnit) in SIZE_UNITS && SizeMultiplier(ToUpperAscii(cfg.sizeUnit)) == 1024
    ensures ToLowerAscii(cfg.timeUnit) in TIME_UNITS && TimeMultiplier(ToLowerAscii(cfg.timeUnit)) == 1_000_000_000
  {
    SizeEntry(1, cfg.sizeUnit);
    TimeEntry(3, cfg.timeUnit);
    UpperFixed(cfg.sizeUnit);
    LowerFixed(cfg.timeUnit);
  }

  lemma TotalSpelled()
    ensures IntToString(1026) == "1026" && IntToString(1) == "1"
  {
  }

  lemma AverageSpelled()
    ensures IntToString(513) == "513" && IntToString(0) == "0"
  {
  }

  /** Half of each total, shown in KB and s. */
  lemma ExampleHalves(cfg: Config, t: Totals)
    requires cfg.sizeUnit == "KB" && cfg.timeUnit == "s"
    requires t == Totals(1_050_624, 1_500_000_000, 2)
    ensures ToUpperAscii(cfg.sizeUnit) in SIZE_UNITS && ToLowerAscii(cfg.timeUnit) in TIME_UNITS
    ensures t.size / t.count / SizeMultiplier(ToUpperAscii(cfg.sizeUnit)) == 513
    ensures t.time / t.count / TimeMultiplier(ToLowerAscii(cfg.timeUnit)) == 0
  {
    ExampleUnits(cfg);
  }

  /** Shown in total mode, in KB and s: "1026KB" and "1s", the 1.5 seconds truncated by the cast to long. */
  lemma ExampleTotal(cfg: Config, store: map<string, int>)
    requires cfg.sizeUnit == "KB" && cfg.timeUnit == "s" && cfg.aggregationType == "total"
    requires Loaded(store) == Totals(1_050_624, 1_500_000_000, 2)
    ensures Summary(cfg, store) == Success([Column(cfg.targetSizeCol, "1026" + cfg.sizeUnit), Column(cfg.targetTimeCol, "1" + cfg.timeUnit)])
  {
    ExampleUnits(cfg);
    SummaryTotal(cfg, store);
    TotalSpelled();
  }

  /** Shown in average mode: "513KB" and "0s", the 0.75 seconds truncated to zero. */
  lemma ExampleAverage(cfg: Config, store: map<string, int>)
    requires cfg.sizeUnit == "KB" && cfg.timeUnit == "s" && cfg.aggregationType == "average"
    requires Loaded(store) == Totals(1_050_624, 1_500_000_000, 2)
    ensures Summary(cfg, store) == Success([Column(cfg.targetSizeCol, "513" + cfg.sizeUnit), Column(cfg.targetTimeCol, "0" + cfg.timeUnit)])
  {
    ExampleHalves(cfg, Loaded(store));
    SummaryAverage(cfg, store);
    AverageSpelled();
  }

  /** The whole run on the two rows, from an empty store to the summary row, in either mode. */
  lemma ExampleRun(first: Row, second: Row, cfg: Config)
    requires first == [Column("size", "2KB"), Column("time", "500ms")]
    requires second == [Column("size", "1MB"), Column("time", "1s")]
    requires cfg.sourceSizeCol == "size" && cfg.sourceTimeCol == "time" && cfg.sizeUnit == "KB" && cfg.timeUnit == "s"
    ensures ExecuteStore(map[], cfg.sourceSizeCol, cfg.sourceTimeCol, [first, second]).Success?
    ensures cfg.aggregationType == "total" ==>
      Summary(cfg, ExecuteStore(map[], cfg.sourceSizeCol, cfg.sourceTimeCol, [first, second]).value)
        == Success([Column(cfg.targetSizeCol, "1026" + cfg.sizeUnit), Column(cfg.targetTimeCol, "1" + cfg.timeUnit)])
    ensures cfg.aggregationType == "average" ==>
      Summary(cfg, ExecuteStore(map[], cfg.sourceSizeCol, cfg.sourceTimeCol, [first, second]).value)
        == Success([Column(cfg.targetSizeCol, "513" + cfg.sizeUnit), Column(cfg.targetTimeCol, "0" + cfg.timeUnit)])
  {
    ExampleBatch(first, second);
    var store := ExecuteStore(map[], cfg.sourceSizeCol, cfg.sourceTimeCol, [first, second]).value;
    if cfg.aggregationType == "total" {
      ExampleTotal(cfg, store);
    } else if cfg.aggregationType == "average" {
      ExampleAverage(cfg, store);
    }
  }

  /* The directive object. */

  /** Each row's outcome under a given row parser, in row order. */
  function ParseAll(rows: seq<Row>, parse: Row -> Result<Sample>): (r: seq<Result<Sample>>)
    ensures |r| == |rows|
    ensures forall i :: 0 <= i < |rows| ==> r[i] == parse(rows[i])
  {
    seq(|rows|, i requires 0 <= i < |rows| => parse(rows[i]))
  }

  /**
   * The loop of execute over one batch: starting from the loaded totals, add
   * each row's parsed size and time and one to the count; stop at the first
   * row that fails to parse. The row parser is a parameter so that the loop's
   * proof does not depend on how a row is parsed.
   */
  method Accumulate(start: Totals, rows: seq<Row>, parse: Row -> Result<Sample>) returns (r: Result<Totals>)
    ensures r == Fold(start, ParseAll(rows, parse))
  {
    ghost var results := ParseAll(rows, parse);
    var totalSize, totalTime, count := start.size, start.time, start.count;
    assert results[0..] == results;
    var i := 0;
    while i < |rows|
      invariant 0 <= i <= |rows|
      invariant Fold(start, results) == Fold(Totals(totalSize, totalTime, count), results[i..])
    {
      ghost var acc := Totals(totalSize, totalTime, count);
      FoldAt(acc, results, i);
      var parsed := parse(rows[i]);
      if parsed.Failure? {
        return Failure(parsed.error);
      }
      totalSize := totalSize + parsed.value.bytes;
      totalTime := totalTime + parsed.value.nanos;
      count := count + 1;
      assert Totals(totalSize, totalTime, count) == Add(acc, parsed.value);
      i := i + 1;
    }
    FoldAt(Totals(totalSize, totalTime, count), results, i);
    return Success(Totals(totalSize, totalTime, count));
  }

  /**
   * The directive object: its seven settings are fields written by
   * initialize; execute and terminate read them.
   */
  class AggregateStats {
    var sourceSizeCol: string
    var sourceTimeCol: string
    var targetSizeCol: string
    var targetTimeCol: string
    var sizeUnit: string
    var timeUnit: string
    var aggregationType: string

    /** The fields are unset (empty here) until initialize runs. */
    constructor ()
      ensures Settings() == Config("", "", "", "", "", "", "")
    {
      sourceSizeCol, sourceTimeCol, targetSizeCol, targetTimeCol := "", "", "", "";
      sizeUnit, timeUnit, aggregationType := "", "", "";
    }

    function Settings(): Config
      reads this
    {
      Config(sourceSizeCol, sourceTimeCol, targetSizeCol, targetTimeCol, sizeUnit, timeUnit, aggregationType)
    }

    /** initialize(arguments). */
    method Initialize(arguments: Arguments)
      requires HasRequired(arguments)
      modifies this
      ensures Settings() == Configure(arguments)
    {
      sourceSizeCol := arguments["sourceSizeCol"];
      sourceTimeCol := arguments["sourceTimeCol"];
      targetSizeCol := arguments["targetSizeCol"];
      targetTimeCol := arguments["targetTimeCol"];
      sizeUnit := ToUpperAscii(ValueOrDefault(arguments, "sizeUnit", "B"));
      timeUnit := ToLowerAscii(ValueOrDefault(arguments, "timeUnit", "ns"));
      aggregationType := ToLowerAscii(ValueOrDefault(arguments, "aggregationType", "total"));
    }

    /**
     * execute(rows, context): fold the batch into local totals, then write
     * the three keys. Nothing is written when a row fails; no rows are emitted.
     */
    method Execute(rows: seq<Row>, context: ExecutorContext) returns (r: Result<seq<Row>>)
      modifies context
      ensures var e := ExecuteStore(old(context.store), sourceSizeCol, sourceTimeCol, rows);
        && (r.Success? <==> e.Success?)
        && (e.Success? ==> r.value == [] && context.store == e.value)
        && (e.Failure? ==> r.error == e.error && context.store == old(context.store))
    {
      var loaded := Totals(context.GetOrDefault(TOTAL_SIZE_KEY, 0), context.GetOrDefault(TOTAL_TIME_KEY, 0),
                          context.GetOrDefault(COUNT_KEY, 0));
      var sizeCol, timeCol := sourceSizeCol, sourceTimeCol;
      var folded := Accumulate(loaded, rows, row => ParseRow(row, sizeCol, timeCol));
      assert ParseAll(rows, row => ParseRow(row, sizeCol, timeCol)) == Parses(rows, sizeCol, timeCol);
      if folded.Failure? {
        return Failure(folded.error);
      }
      context.Set(TOTAL_SIZE_KEY, folded.value.size);
      context.Set(TOTAL_TIME_KEY, folded.value.time);
      context.Set(COUNT_KEY, folded.value.count);
      return Success([]);
    }

    /** terminate(context): the single summary row, or the conversion error. */
    function Terminate(context: ExecutorContext): (r: Result<seq<Row>>)
      reads this, context
      ensures r.Success? <==> Summary(Settings(), context.store).Success?
      ensures r.Success? ==> r.value == [Summary(Settings(), context.store).value]
      ensures r.Failure? ==> r.error == Summary(Settings(), context.store).error
    {
      var row :- Summary(Settings(), context.store);
      Success([row])
    }
  }
}
