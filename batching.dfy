/**
 * The chunking generator `batch(iterable, size)` of the alert engine.
 *
 * Each round pulls `size` items from the iterator (`None` once it is
 * exhausted), keeps the truthy ones, and stops at the first round that keeps
 * nothing. Items are symbol strings, so the falsy ones are "" and `None`.
 */
module Batching {
  import opened Wrappers
  import opened Text

  /** Python truthiness of an item pulled with `next(it, None)`. */
  predicate Truthy(item: Option<string>) {
    item.Some? && item.value != ""
  }

  /** `[i for i in chunk if i]`: the non-empty items, in order. */
  function Kept(xs: seq<string>): (r: seq<string>)
    ensures |r| <= |xs|
    ensures forall k :: 0 <= k < |r| ==> r[k] != "" && r[k] in xs
  {
    if xs == [] then []
    else
      var init := Kept(xs[..|xs| - 1]);
      if xs[|xs| - 1] != "" then init + [xs[|xs| - 1]] else init
  }

  /** The chunks `batch(xs, size)` yields, in order. */
  function Chunks(xs: seq<string>, size: int): (cs: seq<seq<string>>)
    ensures forall k :: 0 <= k < |cs| ==> 1 <= |cs[k]| <= size
    decreases |xs|
  {
    if size <= 0 then []
    else
      var take := if size <= |xs| then size else |xs|;
      var chunk := Kept(xs[..take]);
      if chunk == [] then [] else [chunk] + Chunks(xs[take..], size)
  }

  /** The generator, run to exhaustion: a `while True` loop that yields one
      round of `size` pulls at a time and stops at the first empty round. */
  method Batch(xs: seq<string>, size: int) returns (chunks: seq<seq<string>>)
    ensures chunks == Chunks(xs, size)
  {
    chunks := [];
    var pos := 0;
    while true
      invariant 0 <= pos <= |xs|
      invariant chunks + Chunks(xs[pos..], size) == Chunks(xs, size)
      decreases |xs| - pos
    {
      var start := pos;
      var chunk;
      chunk, pos := Round(xs, pos, size);
      ChunksStep(xs, start, pos, size);
      if chunk == [] {
        break;
      }
      chunks := chunks + [chunk];
    }
  }

  /** The end of a round of `size` pulls that starts at `pos`. */
  function RoundEnd(n: nat, pos: nat, size: int): nat {
    if size <= 0 then pos else if pos + size <= n then pos + size else n
  }

  /** One round: `size` calls of `next(it, None)`, keeping the truthy items. */
  method Round(xs: seq<string>, pos: nat, size: int) returns (chunk: seq<string>, next: nat)
    requires pos <= |xs|
    ensures next == RoundEnd(|xs|, pos, size)
    ensures chunk == Kept(xs[pos..next])
  {
    chunk := [];
    next := pos;
    var k := 0;
    while k < size
      invariant 0 <= k && (k == 0 || k <= size)
      invariant next == if pos + k <= |xs| then pos + k else |xs|
      invariant chunk == Kept(xs[pos..next])
    {
      var item := if next < |xs| then Some(xs[next]) else None;
      if next < |xs| {
        assert xs[pos..next + 1][..next - pos] == xs[pos..next];
        next := next + 1;
      }
      if Truthy(item) {
        chunk := chunk + [item.value];
      }
      k := k + 1;
    }
  }

  /** Unfolding `Chunks` once from position `pos`. */
  lemma ChunksStep(xs: seq<string>, pos: nat, next: nat, size: int)
    requires pos <= |xs| && next == RoundEnd(|xs|, pos, size)
    ensures var chunk := Kept(xs[pos..next]);
      Chunks(xs[pos..], size) == if chunk == [] then [] else [chunk] + Chunks(xs[next..], size)
  {
    if size > 0 {
      var rest := xs[pos..];
      assert rest[..next - pos] == xs[pos..next];
      assert rest[next - pos..] == xs[next..];
    }
  }

  /** The concatenation of a list of chunks. */
  function Flatten(cs: seq<seq<string>>): seq<string> {
    if cs == [] then [] else cs[0] + Flatten(cs[1..])
  }

  lemma {:induction false} KeptAll(xs: seq<string>)
    requires NonBlank(xs)
    ensures Kept(xs) == xs
  {
    if xs != [] {
      KeptAll(xs[..|xs| - 1]);
    }
  }

  /** With no falsy item and a positive size, the chunks put back together are the input. */
  lemma {:induction false} ChunksConcat(xs: seq<string>, size: int)
    requires NonBlank(xs) && size >= 1
    ensures Flatten(Chunks(xs, size)) == xs
    decreases |xs|
  {
    var take := if size <= |xs| then size else |xs|;
    KeptAll(xs[..take]);
    if xs != [] {
      ChunksConcat(xs[take..], size);
      assert xs == xs[..take] + xs[take..];
    }
  }

  /** With no falsy item, every chunk but the last is exactly `size` long. */
  lemma {:induction false} ChunksFull(xs: seq<string>, size: int)
    requires NonBlank(xs) && size >= 1
    ensures forall k :: 0 <= k < |Chunks(xs, size)| - 1 ==> |Chunks(xs, size)[k]| == size
    decreases |xs|
  {
    var take := if size <= |xs| then size else |xs|;
    KeptAll(xs[..take]);
    if xs != [] {
      ChunksFull(xs[take..], size);
      var cs := Chunks(xs, size);
      var rest := Chunks(xs[take..], size);
      assert cs == [xs[..take]] + rest;
      if take < size {
        assert xs[take..] == [];
        assert rest == [];
      }
      assert |cs| >= 2 ==> take == size;
      forall k | 0 <= k < |cs| - 1 ensures |cs[k]| == size {
        if k > 0 {
          assert cs[k] == rest[k - 1];
        } else {
          assert cs[0] == xs[..take];
        }
      }
    }
  }

  /** With no falsy item, there are ceil(|xs| / size) chunks. */
  lemma {:induction false} ChunksCount(xs: seq<string>, size: int)
    requires NonBlank(xs) && size >= 1
    ensures |Chunks(xs, size)| == (|xs| + size - 1) / size
    decreases |xs|
  {
    if xs == [] {
      DivBelow(size - 1, size);
    } else {
      var take := if size <= |xs| then size else |xs|;
      ChunksUncons(xs, size);
      ChunksCount(xs[take..], size);
      CeilStep(|xs|, size);
    }
  }

  lemma ChunksUncons(xs: seq<string>, size: int)
    requires NonBlank(xs) && size >= 1 && xs != []
    ensures |Chunks(xs, size)| == 1 + |Chunks(xs[if size <= |xs| then size else |xs|..], size)|
  {
    var take := if size <= |xs| then size else |xs|;
    KeptAll(xs[..take]);
  }

  /** One full round less leaves one chunk less: ceil(n / d) == 1 + ceil((n - min(d, n)) / d). */
  lemma CeilStep(n: int, d: int)
    requires n >= 1 && d >= 1
    ensures (n + d - 1) / d == 1 + ((n - (if d <= n then d else n)) + d - 1) / d
  {
    if d <= n {
      DivShift(n - 1, d);
    } else {
      DivBelow(d - 1, d);
      DivUnique(n + d - 1, d, 1, n - 1);
    }
  }

  lemma DivBelow(a: int, d: int)
    requires 0 <= a < d
    ensures a / d == 0
  {
  }

  lemma DivShift(a: int, d: int)
    requires a >= 0 && d >= 1
    ensures (a + d) / d == a / d + 1
  {
    assert a + d == d * (a / d + 1) + a % d;
    DivUnique(a + d, d, a / d + 1, a % d);
  }

  lemma DivUnique(a: int, d: int, q: int, r: int)
    requires d >= 1 && 0 <= r < d && a == d * q + r
    ensures a / d == q
  {
    var q', r' := a / d, a % d;
    assert a == d * q' + r' && 0 <= r' < d;
    assert d * (q - q') == r' - r;
    if q - q' >= 1 {
      MulAtLeast(d, q - q');
    } else if q' - q >= 1 {
      MulAtLeast(d, q' - q);
    }
  }

  lemma {:induction false} MulAtLeast(d: int, k: int)
    requires d >= 1 && k >= 1
    ensures d * k >= d
    decreases k
  {
    if k > 1 {
      MulAtLeast(d, k - 1);
      assert d * k == d * (k - 1) + d;
    }
  }

  /** As written, a round that pulls only blank items ends the generator even
      when items remain after it; the fetch loop never feeds it blanks. */
  lemma BlankRoundStops()
    ensures Chunks(["", "", "AAPL"], 2) == []
  {
    assert ["", "", "AAPL"][..2] == ["", ""];
    assert ["", ""][..1] == [""];
  }

  /** A size of zero or less yields nothing at all. */
  lemma NonPositiveSizeYieldsNothing(xs: seq<string>, size: int)
    requires size <= 0
    ensures Chunks(xs, size) == []
  {
  }
}
