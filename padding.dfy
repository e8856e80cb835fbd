/** Right padding of token sequences with zeros: the `pad_sequences` call of
    `data_generator` and the `np.pad` call of `generate_mel`. */
module Padding {
  import opened Outcome

  function Zeros(n: nat): (r: seq<int>)
    ensures |r| == n && forall i :: 0 <= i < n ==> r[i] == 0
  {
    if n == 0 then [] else [0] + Zeros(n - 1)
  }

  /** One row of `pad_sequences(batch, maxlen=maxLen, padding='post')`: a
      short sequence is followed by zeros; a long one loses its leading tokens,
      the library's default `truncating='pre'`. */
  function PadPost(s: seq<int>, maxLen: nat): (r: seq<int>)
    ensures |r| == maxLen
    ensures |s| <= maxLen ==> r[..|s|] == s && forall i :: |s| <= i < maxLen ==> r[i] == 0
    ensures |s| > maxLen ==> r == s[|s| - maxLen..]
  {
    if |s| <= maxLen then
      assert (s + Zeros(maxLen - |s|))[..|s|] == s;
      s + Zeros(maxLen - |s|)
    else s[|s| - maxLen..]
  }

  /** `pad_sequences(batch, maxlen=maxLen, padding='post')`: a batch of rows
      of exactly `maxLen` tokens, row `i` padded from `batch[i]`. */
  function PadSequences(batch: seq<seq<int>>, maxLen: nat): (r: seq<seq<int>>)
    ensures |r| == |batch|
    ensures forall i :: 0 <= i < |r| ==> |r[i]| == maxLen && r[i] == PadPost(batch[i], maxLen)
  {
    if batch == [] then [] else [PadPost(batch[0], maxLen)] + PadSequences(batch[1..], maxLen)
  }

  /** `np.pad(s, (0, maxLenSeq - len(s)), 'constant')`: a negative pad width
      is a `ValueError`; otherwise `s` followed by zeros up to `maxLenSeq`. */
  function NpPad(s: seq<int>, maxLenSeq: int): (r: Result<seq<int>>)
    ensures r.Ok? <==> |s| <= maxLenSeq
    ensures r.Err? ==> r.error == NegativePadWidth
    ensures r.Ok? ==>
              |r.value| == maxLenSeq && r.value[..|s|] == s
              && forall i :: |s| <= i < maxLenSeq ==> r.value[i] == 0
  {
    if maxLenSeq - |s| < 0 then Err(NegativePadWidth)
    else
      var padded := s + Zeros(maxLenSeq - |s|);
      assert padded[..|s|] == s;
      Ok(padded)
  }

  /** Where `np.pad` succeeds it agrees with `pad_sequences(padding='post')`. */
  lemma NpPadIsPadPost(s: seq<int>, maxLenSeq: nat)
    requires |s| <= maxLenSeq
    ensures NpPad(s, maxLenSeq) == Ok(PadPost(s, maxLenSeq))
  {
  }
}
