/** Whole runs of the ring: what the reading thread gets, and when. */
module RingRuns {
  import opened Bits
  import opened Words
  import opened Values
  import opened P = ShardProtocol
  import opened R = RingProtocol

  /** Each step of the run is possible when its turn comes. */
  ghost predicate Legal(r: Ring, run: seq<Step>)
    decreases run
  {
    run == [] || (R.Enabled(r, run[0]) && Legal(R.Next(r, run[0]), run[1..]))
  }

  ghost function After(r: Ring, run: seq<Step>): Ring
    requires Legal(r, run)
    decreases run
  {
    if run == [] then r else After(R.Next(r, run[0]), run[1..])
  }

  lemma {:induction false} RunInv(r: Ring, run: seq<Step>)
    requires R.Inv(r) && Legal(r, run)
    ensures R.Inv(After(r, run))
    decreases run
  {
    if run == [] {
    } else {
      R.NextInv(r, run[0]);
      RunInv(R.Next(r, run[0]), run[1..]);
    }
  }

  /** Every run of any number of writing threads and one reading thread on a new ring keeps the
      ring's invariant. */
  lemma ReachableInv(n: nat, size: nat, choices: seq<set<nat>>, run: seq<Step>)
    requires n > 0 && size >= 2 && Legal(R.Init(n, size, choices), run)
    ensures R.Inv(After(R.Init(n, size, choices), run))
  {
    R.InitInv(n, size, choices);
    RunInv(R.Init(n, size, choices), run);
  }

  /** Nothing blocks: a thread in a call can always go on, with any shard of its choice between
      attempts, and so can the reader. */
  lemma NeverStuck(r: Ring, t: nat, j: nat)
    requires R.Inv(r) && t < |r.threads| && j < |r.shards|
    ensures r.threads[t].attempt.Attempting? ==> R.Enabled(r, Access(t)) || R.Enabled(r, Return(t))
    ensures r.threads[t].attempt.Trying? && j in r.threads[t].choices ==> R.Enabled(r, Try(t, j))
    ensures r.reader.Scanning? ==> R.Enabled(r, Consume) || R.Enabled(r, EndRead)
  {
    assert ThreadOk(r, t) && ProducerMatches(r, t, j);
    if r.threads[t].attempt.Attempting? {
      assert ProducerMatches(r, t, r.threads[t].attempt.shard);
    }
  }

  // ---------------------------------------------------------------- claims and results

  /** Call `k` of thread `t` claimed position `p` of shard `j`. */
  ghost predicate ClaimedAt(r: Ring, t: nat, k: nat, j: nat, p: nat) {
    j < |r.shards| && p < |r.shards[j].log| && r.shards[j].log[p].thread == t && r.shards[j].log[p].call == k
  }

  /** A call that returned true claimed exactly one position in exactly one shard, for its own
      value; a call that returned false claimed none. */
  lemma ResultTellsClaim(r: Ring, t: nat, k: nat)
    requires R.Inv(r) && t < |r.threads| && k < |r.threads[t].results|
    ensures k < |r.threads[t].args|
    ensures match r.threads[t].results[k]
            case Accepted(j, p) =>
              && ClaimedAt(r, t, k, j, p) && r.shards[j].log[p].value == r.threads[t].args[k]
              && forall i, q :: ClaimedAt(r, t, k, i, q) ==> i == j && q == p
            case Rejected =>
              forall i, q :: !ClaimedAt(r, t, k, i, q)
  {
    assert ResultOk(r, t, k);
    forall i, q | ClaimedAt(r, t, k, i, q) ensures r.threads[t].results[k] == Accepted(i, q) {
      assert ClaimOk(r, i, q);
    }
  }

  // ---------------------------------------------------------------- why attempts are refused

  /** A step of the attempt that thread `t` makes. */
  predicate AttemptStep(a: Step, t: nat) {
    a == Access(t) || a == Return(t) || (a.Try? && a.t == t)
  }

  ghost predicate RefusedNow(r: Ring, t: nat, j: nat) {
    j < |r.shards| && t < |r.shards[j].producers| && r.shards[j].producers[t].pc.Refused?
  }

  /** The k-th step of the run is the sequence load that refused the attempt of thread `t` at shard
      `j`: there was reason to refuse it then, and the attempt made no access after it. */
  ghost predicate AttemptRefusedAt(r: Ring, run: seq<Step>, t: nat, j: nat, k: nat) {
    && k < |run| && run[k] == Access(t) && Legal(r, run[..k])
    && (forall l :: k < l < |run| ==> !AttemptStep(run[l], t))
    && var m := After(r, run[..k]);
       && j < |m.shards| && t < |m.threads| && m.threads[t].attempt == Attempting(j)
       && t < |m.shards[j].producers| && P.Refusing(m.shards[j], t)
  }

  lemma RefusalStays(r: Ring, a: Step, t: nat, j: nat)
    requires R.Inv(r) && R.Enabled(r, a) && t < |r.threads| && RefusedNow(r, t, j) && a != Return(t)
    ensures !AttemptStep(a, t) && RefusedNow(R.Next(r, a), t, j) && |R.Next(r, a).threads| == |r.threads|
  {
    assert ProducerMatches(r, t, j);
  }

  lemma {:induction false} RefusalLasts(r: Ring, run: seq<Step>, t: nat, j: nat)
    requires R.Inv(r) && Legal(r, run) && t < |r.threads| && RefusedNow(r, t, j) && Return(t) !in run
    ensures forall a :: a in run ==> !AttemptStep(a, t)
    decreases run
  {
    if run == [] {
    } else {
      RefusalStays(r, run[0], t, j);
      R.NextInv(r, run[0]);
      RefusalLasts(R.Next(r, run[0]), run[1..], t, j);
    }
  }

  lemma RefusalBegins(r: Ring, a: Step, t: nat, j: nat)
    requires R.Inv(r) && R.Enabled(r, a) && t < |r.threads| && j < |r.shards| && !RefusedNow(r, t, j)
    ensures |R.Next(r, a).threads| == |r.threads| && |R.Next(r, a).shards| == |r.shards|
    ensures RefusedNow(R.Next(r, a), t, j) ==>
      a == Access(t) && r.threads[t].attempt == Attempting(j) && P.Refusing(r.shards[j], t)
  {
    if a.Access? {
      AccessOutcome(r.shards[r.threads[a.t].attempt.shard], a.t);
    }
  }

  lemma AttemptRefusedLater(r: Ring, run: seq<Step>, t: nat, j: nat, k: nat)
    requires run != [] && R.Enabled(r, run[0]) && AttemptRefusedAt(R.Next(r, run[0]), run[1..], t, j, k)
    ensures AttemptRefusedAt(r, run, t, j, k + 1)
  {
    assert run[..k + 1][1..] == run[1..][..k] && run[..k + 1][0] == run[0];
    forall m | k + 1 < m < |run| ensures !AttemptStep(run[m], t) {
      assert run[m] == run[1..][m - 1];
    }
  }

  lemma {:induction false} RefusedSince(r: Ring, run: seq<Step>, t: nat, j: nat) returns (k: nat)
    requires R.Inv(r) && Legal(r, run) && t < |r.threads| && j < |r.shards| && Return(t) !in run
    requires !RefusedNow(r, t, j) && RefusedNow(After(r, run), t, j)
    ensures AttemptRefusedAt(r, run, t, j, k)
    decreases run
  {
    var r' := R.Next(r, run[0]);
    RefusalBegins(r, run[0], t, j);
    R.NextInv(r, run[0]);
    if RefusedNow(r', t, j) {
      RefusalLasts(r', run[1..], t, j);
      k := 0;
      assert run[..0] == [] && forall m :: 0 < m < |run| ==> run[m] in run[1..];
    } else {
      var l := RefusedSince(r', run[1..], t, j);
      AttemptRefusedLater(r, run, t, j, l);
      k := l + 1;
    }
  }

  lemma {:induction false} RunShape(r: Ring, run: seq<Step>)
    requires Legal(r, run)
    ensures |After(r, run).shards| == |r.shards| && |After(r, run).threads| == |r.threads|
    decreases run
  {
    if run == [] {
    } else {
      RunShape(R.Next(r, run[0]), run[1..]);
    }
  }

  /** An attempt that returns without being accepted was refused by one of its sequence loads, which
      found the shard full at the newest position, or published by another call at the position it
      loaded; a lost swap alone never refuses it. */
  lemma RefusedReturn(r: Ring, run: seq<Step>, t: nat) returns (j: nat, k: nat)
    requires R.Inv(r) && Legal(r, run) && t < |r.threads| && r.threads[t].attempt.Trying? && Return(t) !in run
    requires R.Enabled(After(r, run), Return(t))
    requires !R.Next(After(r, run), Return(t)).threads[t].attempt.Between?
    ensures After(r, run).threads[t].attempt == Attempting(j) && AttemptRefusedAt(r, run, t, j, k)
  {
    var r' := After(r, run);
    RunInv(r, run);
    RunShape(r, run);
    j := r'.threads[t].attempt.shard;
    assert ProducerMatches(r, t, j);
    k := RefusedSince(r, run, t, j);
  }

  // ---------------------------------------------------------------- the output

  /** The items of a shard come out in position order without gaps: the item at index `a` has as
      its position the number of items of its shard before it. */
  lemma {:induction false} ItemPosition(output: seq<Item>, j: nat, values: seq<Any>, a: nat)
    requires FromShard(output, j) == ItemsOf(j, values) && a < |output| && output[a].shard == j
    ensures output[a].pos == |FromShard(output[..a], j)| < |values| && output[a].value == values[output[a].pos]
    decreases |output|
  {
    var init, last := output[..|output| - 1], output[|output| - 1];
    if a == |output| - 1 {
      assert FromShard(output, j)[|values| - 1] == last;
    } else {
      var rest := if last.shard == j then values[..|values| - 1] else values;
      assert FromShard(init, j) == ItemsOf(j, rest) by {
        if last.shard == j {
          assert FromShard(init, j) == FromShard(output, j)[..|values| - 1];
        }
      }
      assert init[..a] == output[..a];
      ItemPosition(init, j, rest, a);
    }
  }

  lemma {:induction false} FindItem(output: seq<Item>, j: nat, m: nat) returns (a: nat)
    requires m < |FromShard(output, j)|
    ensures a < |output| && output[a] == FromShard(output, j)[m]
    decreases |output|
  {
    var init := output[..|output| - 1];
    if m < |FromShard(init, j)| {
      a := FindItem(init, j, m);
    } else {
      a := |output| - 1;
    }
  }

  lemma {:induction false} FromShardPrefix(output: seq<Item>, j: nat, a: nat)
    requires a <= |output|
    ensures FromShard(output[..a], j) <= FromShard(output, j)
    decreases |output|
  {
    if a == |output| {
      assert output[..a] == output;
    } else {
      var init := output[..|output| - 1];
      assert init[..a] == output[..a];
      FromShardPrefix(init, j, a);
    }
  }

  /** Ring-wide exactly-once: every item handed out is the value of one claim, no claim is handed
      out twice, and the items of each shard are its first claims, in claim order. */
  lemma OutputIsClaims(r: Ring, a: nat, b: nat)
    requires R.Inv(r) && a <= b < |r.output|
    ensures var item := r.output[b];
            && item.shard < |r.shards| && item.pos < r.shards[item.shard].readPos <= |r.shards[item.shard].log|
            && item.value == r.shards[item.shard].log[item.pos].value
    ensures r.output[a].shard == r.output[b].shard && a < b ==> r.output[a].pos < r.output[b].pos
  {
    var j := r.output[b].shard;
    var s := r.shards[j];
    assert ConsumerOk(s);
    ItemPosition(r.output, j, s.out, b);
    if r.output[a].shard == j && a < b {
      ItemPosition(r.output, j, s.out, a);
      var upTo := r.output[..b];
      assert upTo[..a + 1] == r.output[..a + 1] && r.output[..a + 1][..a] == r.output[..a];
      FromShardPrefix(upTo, j, a + 1);
    }
  }

  /** Every claimed position the reader has passed was handed out. */
  lemma ReadPositionsAreOutput(r: Ring, j: nat, p: nat) returns (a: nat)
    requires R.Inv(r) && j < |r.shards| && p < r.shards[j].readPos
    ensures a < |r.output| && r.output[a] == Item(j, p, r.shards[j].log[p].value)
  {
    assert ConsumerOk(r.shards[j]);
    a := FindItem(r.output, j, p);
  }

  lemma CallsOrderPositions(log: seq<Entry>, p: nat, q: nat)
    requires InCallOrder(log) && p < |log| && q < |log|
    requires log[p].thread == log[q].thread && log[p].call < log[q].call
    ensures p < q
  {
  }

  /** Per-producer order: the calls of a thread whose strategy stays on one shard come out in the
      order they were made. When the value of a later accepted call is handed out, that of every
      earlier accepted call has been handed out before. */
  lemma ProducerOrder(r: Ring, t: nat, j: nat, k1: nat, k2: nat, b: nat) returns (a: nat)
    requires R.Inv(r) && t < |r.threads| && r.threads[t].choices == {j}
    requires k1 < k2 < |r.threads[t].results|
    requires r.threads[t].results[k1].Accepted? && r.threads[t].results[k2].Accepted?
    requires b < |r.output| && r.output[b].shard == j && r.output[b].pos == r.threads[t].results[k2].pos
    ensures k2 < |r.threads[t].args| && r.output[b].value == r.threads[t].args[k2]
    ensures a < b && r.output[a] == Item(j, r.threads[t].results[k1].pos, r.threads[t].args[k1])
  {
    assert ResultOk(r, t, k1) && ResultOk(r, t, k2);
    var p1, p2 := r.threads[t].results[k1].pos, r.threads[t].results[k2].pos;
    var s := r.shards[j];
    assert ConsumerOk(s);
    CallsOrderPositions(s.log, p1, p2);
    ItemPosition(r.output, j, s.out, b);
    FromShardPrefix(r.output, j, b);
    a := FindItem(r.output[..b], j, p1);
  }

  // ---------------------------------------------------------------- conservation

  function ValuesIn(items: seq<Item>): (vs: seq<Any>)
    ensures |vs| == |items| && forall a :: 0 <= a < |items| ==> vs[a] == items[a].value
  {
    seq(|items|, a requires 0 <= a < |items| => items[a].value)
  }

  /** The parts one after the other. */
  function Flat(parts: seq<seq<Any>>): seq<Any> {
    if parts == [] then [] else Flat(parts[..|parts| - 1]) + parts[|parts| - 1]
  }

  /** The values claimed, shard by shard. */
  function Claimed(shards: seq<Shard>): (parts: seq<seq<Any>>)
    ensures |parts| == |shards|
  {
    seq(|shards|, j requires 0 <= j < |shards| => ValuesOf(shards[j].log))
  }

  /** The values claimed and not yet read, shard by shard. */
  function Unread(shards: seq<Shard>): (parts: seq<seq<Any>>)
    requires forall s :: s in shards ==> s.readPos <= |s.log|
    ensures |parts| == |shards|
  {
    seq(|shards|, j requires 0 <= j < |shards| => ValuesOf(shards[j].log[shards[j].readPos..]))
  }

  function Count(vs: seq<Any>, v: Any): nat {
    multiset(vs)[v]
  }

  lemma CountConcat(a: seq<Any>, b: seq<Any>, v: Any)
    ensures Count(a + b, v) == Count(a, v) + Count(b, v)
  {
  }

  lemma CountStep(vs: seq<Any>, w: Any, v: Any)
    ensures Count(vs + [w], v) == Count(vs, v) + if w == v then 1 else 0
  {
  }

  /** How often `v` was handed out from shard `j`. */
  function HandedOutOf(output: seq<Item>, j: nat, v: Any): nat {
    if output == [] then 0
    else
      var last := output[|output| - 1];
      HandedOutOf(output[..|output| - 1], j, v) + if last.shard == j && last.value == v then 1 else 0
  }

  lemma {:induction false} HandedOutOfShard(output: seq<Item>, j: nat, v: Any)
    ensures HandedOutOf(output, j, v) == Count(ValuesIn(FromShard(output, j)), v)
    decreases |output|
  {
    if output == [] {
    } else {
      var items, last := FromShard(output[..|output| - 1], j), output[|output| - 1];
      HandedOutOfShard(output[..|output| - 1], j, v);
      if last.shard == j {
        assert ValuesIn(items + [last]) == ValuesIn(items) + [last.value];
        CountStep(ValuesIn(items), last.value, v);
      } else {
        assert items + [] == items;
      }
    }
  }

  /** How often `v` was handed out from the first `n` shards. */
  function HandedOutFrom(output: seq<Item>, n: nat, v: Any): nat {
    if n == 0 then 0 else HandedOutFrom(output, n - 1, v) + HandedOutOf(output, n - 1, v)
  }

  lemma {:induction false} HandedOutFromStep(output: seq<Item>, n: nat, v: Any)
    requires output != []
    ensures var last := output[|output| - 1];
            HandedOutFrom(output, n, v) == HandedOutFrom(output[..|output| - 1], n, v)
              + if last.shard < n && last.value == v then 1 else 0
    decreases n
  {
    if n == 0 {
    } else {
      HandedOutFromStep(output, n - 1, v);
    }
  }

  lemma {:induction false} NothingFrom(n: nat, v: Any)
    ensures HandedOutFrom([], n, v) == 0
  {
    if n == 0 {
    } else {
      NothingFrom(n - 1, v);
    }
  }

  lemma {:induction false} OutputSplits(output: seq<Item>, n: nat, v: Any)
    requires forall a :: 0 <= a < |output| ==> output[a].shard < n
    ensures HandedOutFrom(output, n, v) == Count(ValuesIn(output), v)
    decreases |output|
  {
    if output == [] {
      NothingFrom(n, v);
    } else {
      var init, last := output[..|output| - 1], output[|output| - 1];
      OutputSplits(init, n, v);
      HandedOutFromStep(output, n, v);
      CountStep(ValuesIn(init), last.value, v);
      assert ValuesIn(output) == ValuesIn(init) + [last.value];
    }
  }

  /** One shard's claims are those handed out and then those unread. */
  lemma ShardConserves(r: Ring, j: nat)
    requires R.Inv(r) && j < |r.shards|
    ensures var s := r.shards[j];
            && s.readPos <= |s.log|
            && ValuesIn(FromShard(r.output, j)) + ValuesOf(s.log[s.readPos..]) == ValuesOf(s.log)
  {
    var s := r.shards[j];
    assert ConsumerOk(s);
    assert ValuesIn(ItemsOf(j, s.out)) == s.out;
    assert ValuesOf(s.log) == s.out + ValuesOf(s.log[s.readPos..]);
  }

  function CountIn(parts: seq<seq<Any>>, v: Any): nat {
    if parts == [] then 0 else CountIn(parts[..|parts| - 1], v) + Count(parts[|parts| - 1], v)
  }

  lemma {:induction false} CountFlat(parts: seq<seq<Any>>, v: Any)
    ensures Count(Flat(parts), v) == CountIn(parts, v)
    decreases |parts|
  {
    if parts == [] {
    } else {
      CountFlat(parts[..|parts| - 1], v);
      CountConcat(Flat(parts[..|parts| - 1]), parts[|parts| - 1], v);
    }
  }

  /** Handed out and unread make up claimed, part by part and so in all. */
  lemma {:induction false} PartsConserve(output: seq<Item>, unread: seq<seq<Any>>, claimed: seq<seq<Any>>, v: Any)
    requires |unread| == |claimed|
    requires forall j :: 0 <= j < |claimed| ==>
      HandedOutOf(output, j, v) + Count(unread[j], v) == Count(claimed[j], v)
    ensures HandedOutFrom(output, |claimed|, v) + CountIn(unread, v) == CountIn(claimed, v)
    decreases |claimed|
  {
    if claimed == [] {
    } else {
      PartsConserve(output, unread[..|unread| - 1], claimed[..|claimed| - 1], v);
    }
  }

  lemma ReadWithinLog(r: Ring)
    requires R.Inv(r)
    ensures forall s :: s in r.shards ==> s.readPos <= |s.log|
    ensures forall a :: 0 <= a < |r.output| ==> r.output[a].shard < |r.shards|
  {
    forall s | s in r.shards ensures s.readPos <= |s.log| {
      assert ConsumerOk(s);
    }
  }

  lemma ShardCountsConserved(r: Ring, j: nat, v: Any)
    requires R.Inv(r) && j < |r.shards| && forall s :: s in r.shards ==> s.readPos <= |s.log|
    ensures HandedOutOf(r.output, j, v) + Count(Unread(r.shards)[j], v) == Count(Claimed(r.shards)[j], v)
  {
    var s := r.shards[j];
    ShardConserves(r, j);
    HandedOutOfShard(r.output, j, v);
    CountConcat(ValuesIn(FromShard(r.output, j)), ValuesOf(s.log[s.readPos..]), v);
  }

  lemma SameCounts(a: seq<Any>, b: seq<Any>, c: seq<Any>)
    requires forall v :: Count(a, v) + Count(b, v) == Count(c, v)
    ensures multiset(a) + multiset(b) == multiset(c)
  {
    forall v ensures (multiset(a) + multiset(b))[v] == multiset(c)[v] {
      assert Count(a, v) + Count(b, v) == Count(c, v);
    }
  }

  /** Conservation: in every reachable state the values handed out and the values claimed and not
      yet read are, together, the values claimed, each as often as it was claimed. */
  lemma Conservation(r: Ring)
    requires R.Inv(r)
    ensures forall s :: s in r.shards ==> s.readPos <= |s.log|
    ensures multiset(ValuesIn(r.output)) + multiset(Flat(Unread(r.shards))) == multiset(Flat(Claimed(r.shards)))
  {
    ReadWithinLog(r);
    var unread, claimed := Unread(r.shards), Claimed(r.shards);
    forall v ensures Count(ValuesIn(r.output), v) + Count(Flat(unread), v) == Count(Flat(claimed), v) {
      forall j | 0 <= j < |claimed|
        ensures HandedOutOf(r.output, j, v) + Count(unread[j], v) == Count(claimed[j], v)
      {
        ShardCountsConserved(r, j, v);
      }
      OutputSplits(r.output, |claimed|, v);
      PartsConserve(r.output, unread, claimed, v);
      CountFlat(unread, v);
      CountFlat(claimed, v);
    }
    SameCounts(ValuesIn(r.output), Flat(unread), Flat(claimed));
  }

  // ---------------------------------------------------------------- fairness

  /** Between the states the reader has not passed position `h` of shard `j`; it gets there in the
      call that probes the shard first, which is the d-th after `c0` calls. */
  ghost predicate Due(r: Ring, j: nat, h: nat, c0: nat, d: nat)
    requires j < |r.shards|
  {
    || r.shards[j].readPos > h
    || (&& r.shards[j].readPos == h && r.shards[j].Published(h)
        && r.calls <= c0 + d + 1
        && (r.calls == c0 + d + 1 ==>
              r.reader.Scanning? && r.reader.i == 0 && r.reader.got == 0 && r.reader.max >= 1))
  }

  lemma DueConsume(r: Ring, j: nat, h: nat, c0: nat, d: nat)
    requires R.Inv(r) && R.Enabled(r, Consume) && j < |r.shards| && IsPowerOfTwo(|r.shards|) && |r.shards| < TWO64
    requires Cyclic(c0, d, |r.shards|) == j && Due(r, j, h, c0, d)
    ensures Due(R.Next(r, Consume), j, h, c0, d)
  {
    var s := r.shards[j];
    ConsumerGrows(s);
    if s.readPos == h && r.calls == c0 + d + 1 {
      AlwaysAlignedIff(|r.shards|);
      assert Aligned(c0 + d, |r.shards|);
      assert ProbedShard(r) == j;
      if s.consumer.CheckSeq? { LoadedHead(s); }
    }
  }

  lemma DueNext(r: Ring, a: Step, j: nat, h: nat, c0: nat, d: nat)
    requires R.Inv(r) && R.Enabled(r, a) && j < |r.shards| && IsPowerOfTwo(|r.shards|) && |r.shards| < TWO64
    requires a.StartRead? ==> a.max >= 1
    requires Cyclic(c0, d, |r.shards|) == j && Due(r, j, h, c0, d)
    ensures Due(R.Next(r, a), j, h, c0, d)
  {
    match a
    case Consume => DueConsume(r, j, h, c0, d);
    case Access(t) => ProducerGrows(r.shards[r.threads[t].attempt.shard], t);
    case _ =>
  }

  lemma {:induction false} DueRun(r: Ring, run: seq<Step>, j: nat, h: nat, c0: nat, d: nat)
    requires R.Inv(r) && Legal(r, run) && j < |r.shards| && IsPowerOfTwo(|r.shards|) && |r.shards| < TWO64
    requires forall i :: 0 <= i < |run| && run[i].StartRead? ==> run[i].max >= 1
    requires Cyclic(c0, d, |r.shards|) == j && Due(r, j, h, c0, d)
    ensures |After(r, run).shards| == |r.shards| && Due(After(r, run), j, h, c0, d)
    decreases run
  {
    if run == [] {
    } else {
      R.NextInv(r, run[0]);
      DueNext(r, run[0], j, h, c0, d);
      DueRun(R.Next(r, run[0]), run[1..], j, h, c0, d);
    }
  }

  lemma {:induction false} OutputGrows(r: Ring, run: seq<Step>)
    requires Legal(r, run)
    ensures r.output <= After(r, run).output
    decreases run
  {
    if run == [] {
    } else {
      OutputGrows(R.Next(r, run[0]), run[1..]);
    }
  }

  /** Bounded wait: of any n consecutive read calls that ask for at least one item, one returns the
      item that was at the head of shard `j`, published, before the first of them; whatever the
      producers do meanwhile, and also when the word that rotates over the shards overflows. */
  lemma BoundedWait(r: Ring, run: seq<Step>, j: nat) returns (a: nat)
    requires R.Inv(r) && Legal(r, run) && j < |r.shards| && IsPowerOfTwo(|r.shards|) && |r.shards| < TWO64
    requires r.reader.Idling? && r.shards[j].Published(r.shards[j].readPos)
    requires After(r, run).reader.Idling? && After(r, run).calls >= r.calls + |r.shards|
    requires forall i :: 0 <= i < |run| && run[i].StartRead? ==> run[i].max >= 1
    ensures var r' := After(r, run);
            |r.output| <= a < |r'.output| && r'.output[a].shard == j && r'.output[a].pos == r.shards[j].readPos
  {
    var r', n, h := After(r, run), |r.shards|, r.shards[j].readPos;
    var d := CyclicReaches(r.calls, j, n);
    DueRun(r, run, j, h, r.calls, d);
    RunInv(r, run);
    OutputGrows(r, run);
    a := ReadPositionsAreOutput(r', j, h);
    if a < |r.output| {
      assert r.output[a] == r'.output[a];
      OutputIsClaims(r, a, a);
      assert false;
    }
  }

  // ---------------------------------------------------------------- what a short read means

  ghost predicate Empty(s: Shard) {
    !s.Published(s.readPos)
  }

  /** At some step of the run the next position of shard `j` to be read was not published. */
  ghost predicate SeenEmpty(r: Ring, run: seq<Step>, j: nat) {
    exists k: nat ::
      && k <= |run| && Legal(r, run[..k])
      && j < |After(r, run[..k]).shards| && Empty(After(r, run[..k]).shards[j])
  }

  lemma SeenEmptyNow(r: Ring, run: seq<Step>, j: nat)
    requires j < |r.shards| && Empty(r.shards[j])
    ensures SeenEmpty(r, run, j)
  {
    assert run[..0] == [] && After(r, run[..0]) == r;
  }

  lemma SeenEmptyLater(r: Ring, run: seq<Step>, j: nat)
    requires run != [] && R.Enabled(r, run[0]) && SeenEmpty(R.Next(r, run[0]), run[1..], j)
    ensures SeenEmpty(r, run, j)
  {
    var r' := R.Next(r, run[0]);
    var k: nat :| k <= |run[1..]| && Legal(r', run[1..][..k])
      && j < |After(r', run[1..][..k]).shards| && Empty(After(r', run[1..][..k]).shards[j]);
    assert run[..k + 1][1..] == run[1..][..k] && run[..k + 1][0] == run[0];
  }

  /** A call in progress has handed out all but `got` of the output, and has not passed its d-th
      probe, which is at shard `j`. */
  ghost predicate Underway(r: Ring, before: nat, j: nat, d: nat, max: int) {
    && r.reader.Scanning? && r.reader.max == max && |r.output| == before + r.reader.got
    && r.reader.i <= d < |r.shards| && Cyclic(r.reader.start, d, |r.shards|) == j
  }

  /** The reader gives up a shard only when it finds it empty. */
  lemma PassesWhenEmpty(r: Ring, a: Step, before: nat, j: nat, d: nat, max: int)
    requires R.Inv(r) && R.Enabled(r, a) && !a.EndRead? && Underway(r, before, j, d, max)
    ensures Underway(R.Next(r, a), before, j, d, max) || Empty(r.shards[j])
  {
    if a.Consume? && r.shards[ProbedShard(r)].consumer.CheckSeq? {
      LoadedHead(r.shards[ProbedShard(r)]);
      assert ConsumerOk(r.shards[ProbedShard(r)]);
    }
  }

  lemma {:induction false} ShortFrom(r: Ring, run: seq<Step>, before: nat, j: nat, d: nat, max: int)
    requires R.Inv(r) && Legal(r, run) && run != [] && run[|run| - 1] == EndRead
    requires forall i :: 0 <= i < |run| - 1 ==> !run[i].EndRead?
    requires Underway(r, before, j, d, max)
    ensures |After(r, run).output| - before < max ==> SeenEmpty(r, run, j)
    decreases run
  {
    if Empty(r.shards[j]) {
      SeenEmptyNow(r, run, j);
    } else if |run| == 1 {
      assert run[0] == EndRead && run[1..] == [] && After(r, run) == R.Next(r, EndRead);
    } else {
      R.NextInv(r, run[0]);
      PassesWhenEmpty(r, run[0], before, j, d, max);
      ShortFrom(R.Next(r, run[0]), run[1..], before, j, d, max);
      if |After(r, run).output| - before < max {
        SeenEmptyLater(r, run, j);
      }
    }
  }

  /** A read call, from its first step to its last, whatever the producers do in between. */
  ghost predicate ReadCall(r: Ring, run: seq<Step>, max: int) {
    && Legal(r, run) && |run| >= 2
    && run[0] == StartRead(max) && run[|run| - 1] == EndRead
    && forall i :: 0 <= i < |run| - 1 ==> !run[i].EndRead?
  }

  /** A read that comes back with fewer items than it was asked for has found every shard empty: for
      each there was a step of the call at which its next position was not published. */
  lemma ShortRead(r: Ring, run: seq<Step>, max: int, j: nat)
    requires R.Inv(r) && ReadCall(r, run, max) && j < |r.shards|
    requires |After(r, run).output| - |r.output| < max
    ensures SeenEmpty(r, run, j)
  {
    var d := CyclicReaches(r.readStart, j, |r.shards|);
    R.NextInv(r, run[0]);
    ShortFrom(R.Next(r, run[0]), run[1..], |r.output|, j, d, max);
    SeenEmptyLater(r, run, j);
  }

  lemma NextKeepsPublished(r: Ring, a: Step, j: nat)
    requires R.Inv(r) && R.Enabled(r, a) && j < |r.shards|
    ensures |R.Next(r, a).shards| == |r.shards| && Grows(r.shards[j], R.Next(r, a).shards[j])
  {
    match a
    case Access(t) => ProducerGrows(r.shards[r.threads[t].attempt.shard], t);
    case Consume => ConsumerGrows(r.shards[ProbedShard(r)]);
    case _ =>
  }

  lemma {:induction false} RunKeepsPublished(r: Ring, run: seq<Step>, j: nat)
    requires R.Inv(r) && Legal(r, run) && j < |r.shards|
    ensures |After(r, run).shards| == |r.shards|
    ensures Grows(r.shards[j], After(r, run).shards[j])
    decreases run
  {
    if run == [] {
    } else {
      R.NextInv(r, run[0]);
      NextKeepsPublished(r, run[0], j);
      RunKeepsPublished(R.Next(r, run[0]), run[1..], j);
    }
  }

  lemma {:induction false} LegalCut(r: Ring, run: seq<Step>, k: nat)
    requires Legal(r, run) && k <= |run|
    ensures Legal(r, run[..k]) && Legal(After(r, run[..k]), run[k..])
    ensures After(r, run) == After(After(r, run[..k]), run[k..])
    decreases k
  {
    if k == 0 {
      assert run[..0] == [] && run[0..] == run;
    } else {
      LegalCut(R.Next(r, run[0]), run[1..], k - 1);
      assert run[..k][1..] == run[1..][..k - 1] && run[k..] == run[1..][k - 1..];
    }
  }

  /** So a short read has handed out every value that was published, without gaps from the head of
      its shard, when the call began. */
  lemma ShortReadDrains(r: Ring, run: seq<Step>, max: int, j: nat, p: nat) returns (a: nat)
    requires R.Inv(r) && ReadCall(r, run, max) && j < |r.shards|
    requires |After(r, run).output| - |r.output| < max
    requires r.shards[j].readPos <= p && forall q :: r.shards[j].readPos <= q <= p ==> r.shards[j].Published(q)
    ensures |r.output| <= a < |After(r, run).output|
    ensures p < |r.shards[j].log| && After(r, run).output[a] == Item(j, p, r.shards[j].log[p].value)
  {
    var r' := After(r, run);
    assert r.shards[j].Published(p);
    ShortRead(r, run, max, j);
    var k: nat :| k <= |run| && Legal(r, run[..k])
      && j < |After(r, run[..k]).shards| && Empty(After(r, run[..k]).shards[j]);
    var m := After(r, run[..k]);
    RunKeepsPublished(r, run[..k], j);
    RunInv(r, run[..k]);
    LegalCut(r, run, k);
    RunKeepsPublished(m, run[k..], j);
    assert m.shards[j].readPos > p;
    RunInv(r, run);
    RunKeepsPublished(r, run, j);
    OutputGrows(r, run);
    a := ReadPositionsAreOutput(r', j, p);
    if a < |r.output| {
      assert r.output[a] == r'.output[a];
      OutputIsClaims(r, a, a);
      assert false;
    }
  }

  // ---------------------------------------------------------------- the order within a read

  /** The items handed out since the output had `before` items come from the shards in cyclic order from
      `start`, the last of them at most `upTo` shards after it. */
  ghost predicate InCyclicOrder(output: seq<Item>, before: nat, start: nat, n: nat, upTo: nat) {
    && (forall a :: before <= a < |output| ==> output[a].shard < n && Offset(start, output[a].shard, n) <= upTo)
    && forall a, b :: before <= a <= b < |output| && output[a].shard < n && output[b].shard < n ==>
      Offset(start, output[a].shard, n) <= Offset(start, output[b].shard, n)
  }

  /** A call in progress that started at `start`. */
  ghost predicate Reading(r: Ring, before: nat, start: nat, max: int) {
    && r.reader.Scanning? && r.reader.start == start && r.reader.max == max
    && |r.output| == before + r.reader.got && (r.reader.got > 0 ==> r.reader.got <= max)
    && InCyclicOrder(r.output, before, start, |r.shards|, r.reader.i)
  }

  lemma ReadingNext(r: Ring, a: Step, before: nat, start: nat, max: int)
    requires R.Inv(r) && R.Enabled(r, a) && !a.EndRead? && Reading(r, before, start, max)
    ensures Reading(R.Next(r, a), before, start, max)
  {
    if a.Consume? {
      OffsetOfCyclic(start, r.reader.i, |r.shards|);
    }
  }

  lemma {:induction false} ReadingRun(r: Ring, run: seq<Step>, before: nat, start: nat, max: int)
    requires R.Inv(r) && Legal(r, run) && EndRead !in run && Reading(r, before, start, max)
    ensures Reading(After(r, run), before, start, max) && |After(r, run).shards| == |r.shards|
    decreases run
  {
    if run == [] {
    } else {
      R.NextInv(r, run[0]);
      ReadingNext(r, run[0], before, start, max);
      ReadingRun(R.Next(r, run[0]), run[1..], before, start, max);
    }
  }

  /** A read hands out at most as many items as it was asked for, and takes them from the shards in
      cyclic order from the rotating start, whatever the producers do meanwhile. */
  lemma ReadInOrder(r: Ring, run: seq<Step>, max: int)
    requires R.Inv(r) && ReadCall(r, run, max)
    ensures |r.output| <= |After(r, run).output| <= |r.output| + if max > 0 then max else 0
    ensures InCyclicOrder(After(r, run).output, |r.output|, r.readStart, |r.shards|, |r.shards|)
  {
    var r0, k := R.Next(r, run[0]), |run| - 1;
    LegalCut(r, run, k);
    R.NextInv(r, run[0]);
    assert run[..k] == [run[0]] + run[..k][1..];
    ReadingRun(r0, run[..k][1..], |r.output|, r.readStart, max);
    var m := After(r, run[..k]);
    assert run[k..] == [EndRead] && [EndRead][1..] == [];
    assert After(r, run) == R.Next(m, EndRead);
  }
}
