/**
 * The download loop of the alert engine: every ticker of the fetch set is
 * requested once, in batches of ten, and the non-empty frames are cached.
 *
 * The provider is an oracle from ticker to outcome (a frame, possibly empty,
 * or an exception); the five-second sleep after every hundredth success is a
 * counter of pauses.
 */
module Fetch {
  import opened Text
  import opened Signal
  import opened Batching

  /** What `yf.download` gives for one ticker: a frame (maybe empty) or an exception. */
  datatype Download = Frame(bars: Bars) | Raised

  /** A download that goes into the cache: a frame that is not empty. */
  predicate Succeeds(d: Download)
    ensures Succeeds(d) ==> !d.Raised? && |d.bars.fast| == |d.bars.slow| >= 1
  {
    d.Frame? && BarCount(d.bars) > 0
  }

  /** Symbols pulled from the set per round of `batch`. */
  const BatchSize: int := 10

  /** A pause is taken after every this many successful downloads. */
  const CooldownEvery: int := 100

  /** The cache the loop leaves behind, independent of the order the set is walked in. */
  function CacheOf(targets: set<string>, download: string -> Download): (cache: map<string, Bars>)
    ensures cache.Keys <= targets
    ensures forall t :: t in cache ==> BarCount(cache[t]) >= 1
  {
    map t | t in targets && Succeeds(download(t)) :: download(t).bars
  }

  /** Walking a Python set: its elements in some order, each exactly once. */
  method Enumerate(s: set<string>) returns (xs: seq<string>)
    ensures |xs| == |s|
    ensures forall x :: x in xs <==> x in s
    ensures forall i, j :: 0 <= i < j < |xs| ==> xs[i] != xs[j]
  {
    xs := [];
    var rest := s;
    while rest != {}
      invariant rest <= s
      invariant forall x :: x in xs <==> x in s && x !in rest
      invariant forall i, j :: 0 <= i < j < |xs| ==> xs[i] != xs[j]
      invariant |xs| + |rest| == |s|
      decreases |rest|
    {
      var x :| x in rest;
      xs := xs + [x];
      rest := rest - {x};
    }
  }

  /** What the loop has built once the first `p` tickers of the walk are done. */
  predicate Progress(order: seq<string>, p: nat, download: string -> Download,
                     cache: map<string, Bars>, count: int, pauses: int)
  {
    && p <= |order|
    && cache == CacheOf(Walked(order, p), download)
    && count == |cache|
    && pauses == count / CooldownEvery
  }

  /**
   * The nested download loop. Each ticker ends up either in the cache (its
   * frame was not empty) or among the failures (empty frame or exception),
   * an exception on one ticker leaves the others untouched, and one pause is
   * taken per hundred successes.
   */
  method FetchAll(targets: set<string>, download: string -> Download)
    returns (cache: map<string, Bars>, failed: set<string>, pauses: nat)
    requires forall t :: t in targets ==> t != ""
    ensures cache == CacheOf(targets, download)
    ensures failed == targets - cache.Keys
    ensures pauses == |cache| / CooldownEvery
  {
    var order := Enumerate(targets);
    var chunks := Batch(order, BatchSize);
    WalkCovers(targets, order);
    ChunksConcat(order, BatchSize);
    cache := map[];
    var accessCount := 0;
    pauses := 0;
    ghost var p := 0;
    var i := 0;
    while i < |chunks|
      invariant 0 <= i <= |chunks|
      invariant 0 <= p <= |order|
      invariant Flatten(chunks[i..]) == order[p..]
      invariant Progress(order, p, download, cache, accessCount, pauses)
    {
      assert chunks[i..] == [chunks[i]] + chunks[i + 1..];
      cache, accessCount, pauses, p :=
        FetchBatch(chunks[i], download, cache, accessCount, pauses, order, p, Flatten(chunks[i + 1..]));
      i := i + 1;
    }
    assert p == |order|;
    failed := set t | t in targets && t !in cache;
  }

  /** A walk of the targets holds no blank ticker and, walked to the end, covers them all. */
  lemma WalkCovers(targets: set<string>, order: seq<string>)
    requires forall t :: t in targets ==> t != ""
    requires forall x :: x in order <==> x in targets
    ensures NonBlank(order)
    ensures Walked(order, |order|) == targets
  {
    forall k | 0 <= k < |order| ensures order[k] != "" {
      assert order[k] in targets;
    }
    forall x | x in targets ensures x in Walked(order, |order|) {
      var k :| 0 <= k < |order| && order[k] == x;
    }
  }

  /** One batch: each ticker is downloaded in turn, and an exception skips that ticker only. */
  method FetchBatch(batchSyms: seq<string>, download: string -> Download,
                    cache0: map<string, Bars>, count0: nat, pauses0: nat,
                    ghost order: seq<string>, ghost p0: nat, ghost tail: seq<string>)
    returns (cache: map<string, Bars>, count: nat, pauses: nat, ghost p: nat)
    requires Distinct(order)
    requires p0 <= |order| && batchSyms + tail == order[p0..]
    requires Progress(order, p0, download, cache0, count0, pauses0)
    ensures p <= |order| && tail == order[p..]
    ensures Progress(order, p, download, cache, count, pauses)
  {
    cache, count, pauses, p := cache0, count0, pauses0, p0;
    var j := 0;
    while j < |batchSyms|
      invariant 0 <= j <= |batchSyms|
      invariant p <= |order| && batchSyms[j..] + tail == order[p..]
      invariant Progress(order, p, download, cache, count, pauses)
    {
      var sym := batchSyms[j];
      assert batchSyms[j..] == [sym] + batchSyms[j + 1..];
      assert sym == order[p..][0] == order[p];
      assert batchSyms[j + 1..] + tail == order[p + 1..];
      CacheStep(order, p, download);
      match download(sym) {
        case Raised =>
        case Frame(bars) =>
          if BarCount(bars) > 0 {
            cache := cache[sym := bars];
            count := count + 1;
            if count % CooldownEvery == 0 {
              pauses := pauses + 1;
            }
          }
      }
      p := p + 1;
      j := j + 1;
    }
  }

  /** The tickers among the first `p` of a walk. */
  function Walked(order: seq<string>, p: nat): set<string>
    requires p <= |order|
  {
    set k | 0 <= k < p :: order[k]
  }

  /** Taking one more ticker from the walk extends the cache by that ticker alone. */
  lemma CacheStep(order: seq<string>, p: nat, download: string -> Download)
    requires p < |order|
    requires Distinct(order)
    ensures order[p] !in Walked(order, p)
    ensures Walked(order, p + 1) == Walked(order, p) + {order[p]}
    ensures CacheOf(Walked(order, p + 1), download) ==
              if Succeeds(download(order[p])) then CacheOf(Walked(order, p), download)[order[p] := download(order[p]).bars]
              else CacheOf(Walked(order, p), download)
  {
  }
}
