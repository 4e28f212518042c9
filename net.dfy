/**
 * Network bookkeeping of src/main.rs: choosing the interfaces to show
 * (`ifstats`) and turning two counter snapshots into a throughput figure
 * (`NetStats::mbps`). Reading the counters and the list of interfaces from
 * the operating system is outside the model: those readings are parameters,
 * `None` standing for a failed read.
 */
module Net {
  import opened Common

  /** A snapshot `(Instant, rx_bytes, tx_bytes)`; the instant is in nanoseconds. */
  datatype Sample = Sample(time: nat, rx: u64, tx: u64)

  datatype Error =
    | NetworksUnavailable          // "failed to get network interfaces"
    | StatsUnavailable(name: string)  // "failed to get stats for {name}"
    | CpuLoadUnavailable             // "failed to get CPU load"

  /** A later snapshot of the same interface: neither the clock nor a counter went back. */
  predicate Follows(prev: Sample, next: Sample)
  {
    prev.time <= next.time && prev.rx <= next.rx && prev.tx <= next.tx
  }

  /** The largest `u16`, where the saturating `as u16` cast stops. */
  const Saturated: u16 := 0xFFFF

  /** Rounding-up integer division. */
  function CeilDiv(a: nat, b: nat): (q: nat)
    requires b > 0
    ensures a <= q * b && (q - 1) * b < a
  {
    var m := a + b - 1;
    assert m == (m / b) * b + m % b;
    m / b
  }

  /**
   * `(delta as f64 / secs / 1e6).ceil() as u16` for an interval of `nanos`
   * nanoseconds, computed exactly: the smallest whole number of megabytes per
   * second not below the true rate, capped at 65535. A zero interval gives
   * 0/0 = NaN (cast to 0) when nothing was counted and +infinity (cast to
   * 65535) otherwise.
   */
  function Rate(delta: nat, nanos: nat): (r: u16)
    ensures nanos == 0 ==> r == (if delta == 0 then 0 else Saturated)
    ensures nanos > 0 && r < Saturated ==> (r as int - 1) * nanos < delta * 1000 <= r as int * nanos
    ensures nanos > 0 && r == Saturated ==> (Saturated as int - 1) * nanos < delta * 1000
  {
    if nanos == 0 then (if delta == 0 then 0 else Saturated)
    else
      var q := CeilDiv(delta * 1000, nanos);
      if q < Saturated as int then q as u16 else Saturated
  }

  /** More bytes in the same interval never show a lower rate. */
  lemma RateMonotone(d1: nat, d2: nat, nanos: nat)
    requires d1 <= d2
    ensures Rate(d1, nanos) <= Rate(d2, nanos)
  {
    if nanos > 0 {
      var r1, r2 := Rate(d1, nanos) as int, Rate(d2, nanos) as int;
      if r2 < Saturated as int && r1 > r2 {
        MulMono(r2, r1 - 1, nanos);
        assert false;
      }
    }
  }

  lemma MulMono(a: nat, b: nat, n: nat)
    requires a <= b
    ensures a * n <= b * n
  {
  }

  /** What `mbps` reports for two snapshots: the pair (rx, tx), in that order. */
  function Speeds(prev: Sample, next: Sample): (u16, u16)
    requires Follows(prev, next)
  {
    var nanos := next.time - prev.time;
    (Rate((next.rx - prev.rx) as nat, nanos), Rate((next.tx - prev.tx) as nat, nanos))
  }

  /** A run of snapshots, each following the one before. */
  predicate Chained(ss: seq<Sample>)
  {
    forall i :: 0 < i < |ss| ==> Follows(ss[i - 1], ss[i])
  }

  /** The received bytes each poll measures, summed over a run of snapshots. */
  function RxCounted(ss: seq<Sample>): nat
    requires Chained(ss)
  {
    if |ss| < 2 then 0
    else RxCounted(ss[..|ss| - 1]) + (ss[|ss| - 1].rx - ss[|ss| - 2].rx) as nat
  }

  /** The transmitted bytes each poll measures, summed over a run of snapshots. */
  function TxCounted(ss: seq<Sample>): nat
    requires Chained(ss)
  {
    if |ss| < 2 then 0
    else TxCounted(ss[..|ss| - 1]) + (ss[|ss| - 1].tx - ss[|ss| - 2].tx) as nat
  }

  /**
   * Because each poll replaces the stored snapshot with the one it took,
   * successive polls measure every byte exactly once: the deltas between
   * consecutive snapshots add up to the change from the first to the last.
   */
  lemma {:induction false} PollsCountEveryByte(ss: seq<Sample>)
    requires |ss| >= 1 && Chained(ss)
    ensures RxCounted(ss) == ss[|ss| - 1].rx as int - ss[0].rx as int
    ensures TxCounted(ss) == ss[|ss| - 1].tx as int - ss[0].tx as int
  {
    if |ss| >= 2 {
      var init := ss[..|ss| - 1];
      assert Chained(init);
      PollsCountEveryByte(init);
      assert Follows(ss[0], ss[|ss| - 2]) by {
        ChainedFollows(init);
      }
    }
  }

  /** The first snapshot of a run is followed by every later one. */
  lemma {:induction false} ChainedFollows(ss: seq<Sample>)
    requires |ss| >= 1 && Chained(ss)
    ensures Follows(ss[0], ss[|ss| - 1])
  {
    if |ss| >= 2 {
      ChainedFollows(ss[..|ss| - 1]);
    }
  }

  class NetStats {
    const name: string
    var last: Sample

    /** `NetStats::new` once its first snapshot has been read. */
    constructor (name: string, first: Sample)
      ensures this.name == name && last == first
    {
      this.name := name;
      last := first;
    }

    /**
     * `mbps`: take a new snapshot (`reading`), report the rates since the
     * stored one and keep the new snapshot for the next call. A failed read
     * returns the error and keeps the stored snapshot.
     */
    method Mbps(reading: Option<Sample>) returns (r: Result<(u16, u16), Error>)
      requires reading.Some? ==> Follows(last, reading.value)
      modifies this
      ensures reading.None? ==> r == Err(StatsUnavailable(name)) && last == old(last)
      ensures reading.Some? ==> r == Ok(Speeds(old(last), reading.value)) && last == reading.value
    {
      if reading.None? {
        return Err(StatsUnavailable(name));
      }
      var next := reading.value;
      var nanos := next.time - last.time;
      var rx := Rate((next.rx - last.rx) as nat, nanos);
      var tx := Rate((next.tx - last.tx) as nat, nanos);
      last := next;
      r := Ok((rx, tx));
    }
  }

  /** `NetStats::new(name)`: fails when the first snapshot cannot be read. */
  method NewNetStats(name: string, reading: Option<Sample>) returns (r: Result<NetStats, Error>)
    ensures reading.None? ==> r == Err(StatsUnavailable(name))
    ensures reading.Some? ==> r.Ok? && fresh(r.value) && r.value.name == name && r.value.last == reading.value
  {
    if reading.None? {
      return Err(StatsUnavailable(name));
    }
    var stats := new NetStats(name, reading.value);
    r := Ok(stats);
  }

  // ---------------------------------------------------------------- names

  predicate StartsWith(s: string, prefix: string)
  {
    |prefix| <= |s| && s[..|prefix|] == prefix
  }

  /** The interfaces the dashboard shows: wired `eth*` and wireless `wlan*`. */
  predicate Wanted(name: string)
  {
    StartsWith(name, "eth") || StartsWith(name, "wlan")
  }

  /** The names the `push` loop of `ifstats` collects, in input order. */
  function Filter(names: seq<string>): (r: seq<string>)
    ensures forall x :: multiset(r)[x] == if Wanted(x) then multiset(names)[x] else 0
  {
    if names == [] then []
    else
      var init, x := names[..|names| - 1], names[|names| - 1];
      assert names == init + [x];
      Filter(init) + (if Wanted(x) then [x] else [])
  }

  /** `String`'s ordering: lexicographic by character, a prefix first. */
  predicate LexLe(a: string, b: string)
  {
    |a| == 0 || (|b| > 0 && (a[0] < b[0] || (a[0] == b[0] && LexLe(a[1..], b[1..]))))
  }

  lemma {:induction false} LexRefl(a: string)
    ensures LexLe(a, a)
  {
    if |a| > 0 {
      LexRefl(a[1..]);
    }
  }

  lemma {:induction false} LexTotal(a: string, b: string)
    ensures LexLe(a, b) || LexLe(b, a)
  {
    if |a| > 0 && |b| > 0 && a[0] == b[0] {
      LexTotal(a[1..], b[1..]);
    }
  }

  lemma {:induction false} LexTrans(a: string, b: string, c: string)
    requires LexLe(a, b) && LexLe(b, c)
    ensures LexLe(a, c)
  {
    if |a| > 0 && a[0] == b[0] && b[0] == c[0] {
      LexTrans(a[1..], b[1..], c[1..]);
    }
  }

  lemma {:induction false} LexAntisym(a: string, b: string)
    requires LexLe(a, b) && LexLe(b, a)
    ensures a == b
  {
    if |a| > 0 {
      LexAntisym(a[1..], b[1..]);
      assert a == [a[0]] + a[1..] && b == [b[0]] + b[1..];
    }
  }

  predicate Sorted(s: seq<string>)
  {
    forall i, j :: 0 <= i < j < |s| ==> LexLe(s[i], s[j])
  }

  /** Insert `x` into a sorted run before the first name not below it. */
  function Insert(x: string, s: seq<string>): (r: seq<string>)
    requires Sorted(s)
    ensures Sorted(r) && multiset(r) == multiset(s) + multiset{x}
  {
    if s == [] || LexLe(x, s[0]) then
      BelowAll(x, s);
      ConsSorted(x, s);
      [x] + s
    else
      var rest := Insert(x, s[1..]);
      LexTotal(x, s[0]);
      HeadBelowRest(s, x, rest);
      [s[0]] + rest
  }

  /** A name below every element of a sorted run can head it. */
  lemma ConsSorted(a: string, s: seq<string>)
    requires Sorted(s) && forall j :: 0 <= j < |s| ==> LexLe(a, s[j])
    ensures Sorted([a] + s)
  {
  }

  /** A name not above the head of a sorted run is not above any of it. */
  lemma BelowAll(x: string, s: seq<string>)
    requires Sorted(s) && (s == [] || LexLe(x, s[0]))
    ensures forall j :: 0 <= j < |s| ==> LexLe(x, s[j])
  {
    forall j | 0 <= j < |s| ensures LexLe(x, s[j]) {
      if j > 0 { LexTrans(x, s[0], s[j]); }
    }
  }

  /** The head of a sorted run is below everything its tail holds, and below `x`. */
  lemma HeadBelowRest(s: seq<string>, x: string, rest: seq<string>)
    requires Sorted(s) && s != [] && LexLe(s[0], x)
    requires Sorted(rest) && multiset(rest) == multiset(s[1..]) + multiset{x}
    ensures Sorted([s[0]] + rest) && multiset([s[0]] + rest) == multiset(s) + multiset{x}
  {
    assert s == [s[0]] + s[1..];
    forall j | 0 <= j < |rest| ensures LexLe(s[0], rest[j]) {
      var y := rest[j];
      assert y in multiset(rest);
      if y != x {
        assert y in multiset(s[1..]);
        var k :| 0 <= k < |s[1..]| && s[1..][k] == y;
        assert s[k + 1] == y;
      }
    }
    ConsSorted(s[0], rest);
  }

  /** `Vec::sort` on names: a sorted permutation. */
  function Sort(s: seq<string>): (r: seq<string>)
    ensures Sorted(r) && multiset(r) == multiset(s)
  {
    if s == [] then []
    else
      assert s == [s[0]] + s[1..];
      Insert(s[0], Sort(s[1..]))
  }

  /**
   * A sorted permutation is unique, so any correct sort (the library's
   * merge sort or the insertion sort above) yields the same names.
   */
  lemma {:induction false} SortedUnique(a: seq<string>, b: seq<string>)
    requires Sorted(a) && Sorted(b) && multiset(a) == multiset(b)
    ensures a == b
    decreases |a|
  {
    if a != [] {
      assert b != [] by {
        assert a[0] in multiset(b);
      }
      SameHead(a, b);
      var x := a[0];
      assert a == [x] + a[1..] && b == [x] + b[1..];
      assert multiset(a[1..]) == multiset(b[1..]) by {
        TailMultiset(a);
        TailMultiset(b);
      }
      SortedUnique(a[1..], b[1..]);
    }
  }

  lemma TailMultiset(a: seq<string>)
    requires a != []
    ensures multiset(a[1..]) == multiset(a) - multiset{a[0]}
  {
    assert a == [a[0]] + a[1..];
  }

  /** Two sorted runs of the same names start with the same (least) name. */
  lemma SameHead(a: seq<string>, b: seq<string>)
    requires Sorted(a) && Sorted(b) && multiset(a) == multiset(b) && a != [] && b != []
    ensures a[0] == b[0]
  {
    assert a[0] in multiset(b) && b[0] in multiset(a);
    var i :| 0 <= i < |b| && b[i] == a[0];
    var j :| 0 <= j < |a| && a[j] == b[0];
    LexRefl(a[0]);
    assert LexLe(b[0], a[0]) by {
      if i > 0 { assert LexLe(b[0], b[i]); }
    }
    assert LexLe(a[0], b[0]) by {
      if j > 0 { assert LexLe(a[0], a[j]); }
    }
    LexAntisym(a[0], b[0]);
  }

  /** The filter-and-sort part of `ifstats`. */
  method SelectNames(networks: seq<string>) returns (names: seq<string>)
    ensures Sorted(names)
    ensures forall x :: multiset(names)[x] == if Wanted(x) then multiset(networks)[x] else 0
    ensures names == Sort(Filter(networks))
  {
    names := [];
    for i := 0 to |networks|
      invariant names == Filter(networks[..i])
    {
      assert networks[..i + 1][..i] == networks[..i];
      if Wanted(networks[i]) {
        names := names + [networks[i]];
      }
    }
    assert networks[..|networks|] == networks;
    names := Sort(names);
  }

  /** The index of the first name whose snapshot cannot be read, or `|names|`. */
  function FirstUnreadable(names: seq<string>, readings: map<string, Sample>): (k: nat)
    ensures k <= |names|
    ensures forall j :: 0 <= j < k ==> names[j] in readings
    ensures k < |names| ==> names[k] !in readings
  {
    if names == [] then 0
    else if names[0] !in readings then 0
    else 1 + FirstUnreadable(names[1..], readings)
  }

  /** One fresh, distinct `NetStats` per name, in order, holding that name's first snapshot. */
  twostate predicate Built(new stats: seq<NetStats>, names: seq<string>, readings: map<string, Sample>)
    reads stats
  {
    |stats| == |names| &&
    (forall i :: 0 <= i < |names| ==>
      fresh(stats[i]) && stats[i].name == names[i] &&
      names[i] in readings && stats[i].last == readings[names[i]]) &&
    (forall i, j :: 0 <= i < j < |names| ==> stats[i] != stats[j])
  }

  /**
   * `ifstats`: list the interfaces (`networks`, `None` if that fails), keep
   * and sort the wanted names, then build one `NetStats` per name in that
   * order; the first snapshot that cannot be read aborts the whole selection.
   */
  method IfStats(networks: Option<seq<string>>, readings: map<string, Sample>)
    returns (r: Result<seq<NetStats>, Error>)
    ensures networks.None? ==> r == Err(NetworksUnavailable)
    ensures networks.Some? ==>
      var names := Sort(Filter(networks.value));
      var k := FirstUnreadable(names, readings);
      (k < |names| ==> r == Err(StatsUnavailable(names[k]))) &&
      (k == |names| ==> r.Ok? && Built(r.value, names, readings))
  {
    if networks.None? {
      return Err(NetworksUnavailable);
    }
    var names := SelectNames(networks.value);
    r := BuildStats(names, readings);
  }

  /** The second loop of `ifstats`: one `NetStats` per name, stopping at the first failure. */
  method BuildStats(names: seq<string>, readings: map<string, Sample>) returns (r: Result<seq<NetStats>, Error>)
    ensures var k := FirstUnreadable(names, readings);
      (k < |names| ==> r == Err(StatsUnavailable(names[k]))) &&
      (k == |names| ==> r.Ok? && Built(r.value, names, readings))
  {
    var result: seq<NetStats> := [];
    for i := 0 to |names|
      invariant forall j :: 0 <= j < i ==> names[j] in readings
      invariant |result| == i
      invariant forall j :: 0 <= j < i ==>
        fresh(result[j]) && result[j].name == names[j] && result[j].last == readings[names[j]]
      invariant forall j, l :: 0 <= j < l < i ==> result[j] != result[l]
    {
      var stats := NewNetStats(names[i], if names[i] in readings then Some(readings[names[i]]) else None);
      if stats.Err? {
        return Err(stats.error);
      }
      result := result + [stats.value];
    }
    r := Ok(result);
  }
}
