/** One pass of `data_generator`'s outer loop, and `steps_per_epoch`.
    `for i in range(0, len(sequences), batch_size)` cuts the windows
    `sequences[i:i + batch_size]` and `mels[i:i + batch_size]`, pads the
    token window to `max_len` and yields it with the mel window. */
module Batching {
  import opened Outcome
  import Padding

  /** `int(np.ceil(n / batchSize))`: the least number of windows of
      `batchSize` elements that covers `n` elements. */
  function StepsPerEpoch(n: nat, batchSize: nat): (r: Result<nat>)
    ensures r.Err? <==> batchSize == 0
    ensures r.Err? ==> r.error == ZeroDivision
    ensures r.Ok? ==> r.value * batchSize >= n && (r.value - 1) * batchSize < n
  {
    if batchSize == 0 then Err(ZeroDivision)
    else
      CeilBounds(n, batchSize);
      Ok((n + batchSize - 1) / batchSize)
  }

  lemma CeilBounds(n: nat, b: nat)
    requires b > 0
    ensures ((n + b - 1) / b) * b >= n && ((n + b - 1) / b - 1) * b < n
  {
    var q := (n + b - 1) / b;
    var m := (n + b - 1) % b;
    assert n + b - 1 == q * b + m;
    assert (q - 1) * b == q * b - b;
  }

  lemma MulMonotone(x: int, y: int, b: nat)
    requires x <= y
    ensures x * b <= y * b
  {
  }

  /** The ceiling is the only count of windows with those two bounds. */
  lemma CeilUnique(n: nat, b: nat, k: int)
    requires b > 0
    requires k * b >= n && (k - 1) * b < n
    ensures StepsPerEpoch(n, b) == Ok(k)
  {
    var q := StepsPerEpoch(n, b).value;
    if k < q {
      MulMonotone(k, q - 1, b);
    } else if k > q {
      MulMonotone(q, k - 1, b);
    }
  }

  /** Python's `s[lo:hi]` for non-negative bounds: the bounds are clamped to
      the length of `s`. */
  function PySlice<T>(s: seq<T>, lo: nat, hi: nat): (r: seq<T>)
    ensures |r| == if lo <= hi && lo <= |s| then (if hi < |s| then hi else |s|) - lo else 0
    ensures forall j :: 0 <= j < |r| ==> r[j] == s[lo + j]
  {
    var h := if hi < |s| then hi else |s|;
    var l := if lo < h then lo else h;
    s[l..h]
  }

  /** The windows `s[i:i + b]` for the offsets `i, i + b, i + 2b, ...` that
      `range(i, n, b)` visits. */
  function WindowsFrom<T>(s: seq<T>, i: nat, n: nat, b: nat): (r: seq<seq<T>>)
    requires b > 0
    ensures r == [] <==> i >= n
    ensures forall k :: 0 <= k < |r| ==> |r[k]| <= b
    decreases n - i
  {
    if i >= n then [] else [PySlice(s, i, i + b)] + WindowsFrom(s, i + b, n, b)
  }

  function Concat<T>(ws: seq<seq<T>>): seq<T> {
    if ws == [] then [] else ws[0] + Concat(ws[1..])
  }

  /** What one iteration of the loop yields: the padded token window and the
      mel window (mel padding is not modelled; see README). */
  datatype Batch<M> = Batch(tokens: seq<seq<int>>, mels: seq<M>)

  /** The batches the loop yields from offset `i` on. */
  function BatchesFrom<M>(sequences: seq<seq<int>>, mels: seq<M>, i: nat, b: nat, maxLen: nat): (r: seq<Batch<M>>)
    requires b > 0
    ensures r == [] <==> i >= |sequences|
    ensures forall k :: 0 <= k < |r| ==> |r[k].tokens| <= b && |r[k].mels| <= b
    ensures forall k, j :: 0 <= k < |r| && 0 <= j < |r[k].tokens| ==> |r[k].tokens[j]| == maxLen
    decreases |sequences| - i
  {
    if i >= |sequences| then []
    else
      [Batch(Padding.PadSequences(PySlice(sequences, i, i + b), maxLen), PySlice(mels, i, i + b))]
      + BatchesFrom(sequences, mels, i + b, b, maxLen)
  }

  /** One pass of `data_generator(sequences, mels, batchSize, mel_dim, maxLen)`:
      the batches in the order they are yielded; a zero batch size makes
      `range` raise `ValueError`. */
  method DataGeneratorPass<M>(sequences: seq<seq<int>>, mels: seq<M>, batchSize: nat, maxLen: nat)
    returns (r: Result<seq<Batch<M>>>)
    ensures batchSize == 0 ==> r == Err(ZeroRangeStep)
    ensures batchSize > 0 ==> r == Ok(BatchesFrom(sequences, mels, 0, batchSize, maxLen))
  {
    if batchSize == 0 {
      return Err(ZeroRangeStep);
    }
    var batches := [];
    var i := 0;
    while i < |sequences|
      invariant batches + BatchesFrom(sequences, mels, i, batchSize, maxLen)
             == BatchesFrom(sequences, mels, 0, batchSize, maxLen)
      decreases |sequences| - i
    {
      var batchSequences := PySlice(sequences, i, i + batchSize);
      var batchMels := PySlice(mels, i, i + batchSize);
      var paddedSequences := Padding.PadSequences(batchSequences, maxLen);
      batches := batches + [Batch(paddedSequences, batchMels)];
      i := i + batchSize;
    }
    assert BatchesFrom(sequences, mels, i, batchSize, maxLen) == [];
    assert batches + [] == batches;
    return Ok(batches);
  }

  /** There are ceil((n - i) / b) windows from offset `i` on. */
  lemma {:induction false} WindowCountFrom<T>(s: seq<T>, i: nat, n: nat, b: nat)
    requires b > 0 && i <= n
    ensures var c := |WindowsFrom(s, i, n, b)|; c * b >= n - i && (c - 1) * b < n - i
    decreases n - i
  {
    if i < n {
      if i + b < n {
        WindowCountFrom(s, i + b, n, b);
        var c := |WindowsFrom(s, i + b, n, b)|;
        assert (c + 1) * b == c * b + b;
      }
    }
  }

  /** Window `k` starts at offset `i + k * b`, strictly below `n`. */
  lemma {:induction false} WindowAtFrom<T>(s: seq<T>, i: nat, n: nat, b: nat, k: nat)
    requires b > 0 && k < |WindowsFrom(s, i, n, b)|
    ensures i + k * b < n
    ensures WindowsFrom(s, i, n, b)[k] == PySlice(s, i + k * b, i + k * b + b)
    decreases n - i
  {
    if k > 0 {
      WindowAtFrom(s, i + b, n, b, k - 1);
      assert (k - 1) * b + b == k * b;
    }
  }

  /** A pass over `n` elements has `steps_per_epoch` windows, at the offsets
      `0, b, 2b, ...`, all strictly below `n`. */
  lemma WindowOffsets<T>(s: seq<T>, n: nat, b: nat)
    requires b > 0
    ensures StepsPerEpoch(n, b) == Ok(|WindowsFrom(s, 0, n, b)|)
    ensures forall k :: 0 <= k < |WindowsFrom(s, 0, n, b)| ==>
      k * b < n && WindowsFrom(s, 0, n, b)[k] == PySlice(s, k * b, k * b + b)
  {
    WindowCountFrom(s, 0, n, b);
    CeilUnique(n, b, |WindowsFrom(s, 0, n, b)|);
    forall k | 0 <= k < |WindowsFrom(s, 0, n, b)|
      ensures k * b < n && WindowsFrom(s, 0, n, b)[k] == PySlice(s, k * b, k * b + b)
    {
      WindowAtFrom(s, 0, n, b, k);
    }
  }

  /** Over the whole list, every window has between 1 and `b` elements and
      only the last can be shorter than `b`. */
  lemma WindowSizes<T>(s: seq<T>, b: nat, k: nat)
    requires b > 0 && k < |WindowsFrom(s, 0, |s|, b)|
    ensures 1 <= |WindowsFrom(s, 0, |s|, b)[k]| <= b
    ensures k + 1 < |WindowsFrom(s, 0, |s|, b)| ==> |WindowsFrom(s, 0, |s|, b)[k]| == b
  {
    WindowAtFrom(s, 0, |s|, b, k);
    if k + 1 < |WindowsFrom(s, 0, |s|, b)| {
      WindowAtFrom(s, 0, |s|, b, k + 1);
      assert (k + 1) * b == k * b + b;
    }
  }

  /** The windows, concatenated in order, give back the list from offset `i`. */
  lemma {:induction false} ConcatWindowsFrom<T>(s: seq<T>, i: nat, b: nat)
    requires b > 0 && i <= |s|
    ensures Concat(WindowsFrom(s, i, |s|, b)) == s[i..]
    decreases |s| - i
  {
    var ws := WindowsFrom(s, i, |s|, b);
    if i < |s| {
      assert ws[1..] == WindowsFrom(s, i + b, |s|, b);
      if i + b <= |s| {
        ConcatWindowsFrom(s, i + b, b);
        assert PySlice(s, i, i + b) == s[i..i + b];
        assert s[i..] == s[i..i + b] + s[i + b..];
      } else {
        assert PySlice(s, i, i + b) == s[i..];
        assert ws[1..] == [];
        assert Concat(ws) == s[i..] + [];
      }
    }
  }

  /** Concatenating the windows of a pass reproduces the list. */
  lemma ConcatWindows<T>(s: seq<T>, b: nat)
    requires b > 0
    ensures Concat(WindowsFrom(s, 0, |s|, b)) == s
  {
    ConcatWindowsFrom(s, 0, b);
  }

  /** Batch `k` of a pass is the padded token window `k` and the mel window
      `k`, both cut along the offsets of the token list. */
  lemma {:induction false} BatchesAreWindows<M>(sequences: seq<seq<int>>, mels: seq<M>, i: nat, b: nat, maxLen: nat)
    requires b > 0
    ensures var bs := BatchesFrom(sequences, mels, i, b, maxLen);
      |bs| == |WindowsFrom(sequences, i, |sequences|, b)| == |WindowsFrom(mels, i, |sequences|, b)|
      && forall k :: 0 <= k < |bs| ==>
           bs[k] == Batch(Padding.PadSequences(WindowsFrom(sequences, i, |sequences|, b)[k], maxLen),
                          WindowsFrom(mels, i, |sequences|, b)[k])
    decreases |sequences| - i
  {
    if i < |sequences| {
      BatchesAreWindows(sequences, mels, i + b, b, maxLen);
    }
  }

  /** A pass yields `steps_per_epoch` batches. Batch `k` covers the index
      range starting at `k * b` in both lists: its tokens are the padded
      `sequences[k*b : k*b + b]`, every row of length `maxLen`, and its mels
      are `mels[k*b : k*b + b]`; when the lists have the same length the two
      halves have the same number of rows. */
  lemma PassShape<M>(sequences: seq<seq<int>>, mels: seq<M>, b: nat, maxLen: nat)
    requires b > 0
    ensures var bs := BatchesFrom(sequences, mels, 0, b, maxLen);
      StepsPerEpoch(|sequences|, b) == Ok(|bs|)
      && forall k :: 0 <= k < |bs| ==>
           k * b < |sequences|
           && bs[k].tokens == Padding.PadSequences(PySlice(sequences, k * b, k * b + b), maxLen)
           && bs[k].mels == PySlice(mels, k * b, k * b + b)
           && (forall j :: 0 <= j < |bs[k].tokens| ==> |bs[k].tokens[j]| == maxLen)
           && (|mels| == |sequences| ==> |bs[k].tokens| == |bs[k].mels|)
  {
    var n := |sequences|;
    BatchesAreWindows(sequences, mels, 0, b, maxLen);
    WindowOffsets(sequences, n, b);
    WindowOffsets(mels, n, b);
  }
}
