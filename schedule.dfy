/** The learning-rate `scheduler`: the rate is kept for the first ten epochs
    and multiplied by a fixed decay factor (`exp(-0.1)` in the script, left
    abstract here) in every later epoch. */
module Schedule {

  function Scheduler(epoch: nat, lr: real, decay: real): (r: real)
    ensures epoch < 10 ==> r == lr
    ensures lr >= 0.0 && 0.0 <= decay <= 1.0 ==> 0.0 <= r <= lr
  {
    if epoch < 10 then lr else lr * decay
  }

  /** The rate in force in epoch `e` when the training callback calls
      `Scheduler` at the start of every epoch with the current rate. */
  function RateAt(e: nat, lr0: real, decay: real): (r: real)
    ensures e < 10 ==> r == lr0
    ensures lr0 >= 0.0 && 0.0 <= decay <= 1.0 ==> 0.0 <= r <= lr0
  {
    if e == 0 then Scheduler(0, lr0, decay)
    else Scheduler(e, RateAt(e - 1, lr0, decay), decay)
  }

  function Pow(x: real, k: nat): real {
    if k == 0 then 1.0 else x * Pow(x, k - 1)
  }

  /** The rate stays `lr0` for epochs 0 to 9 and is `lr0 * decay^(e - 9)` in
      epoch `e >= 10`. */
  lemma {:induction false} RateClosedForm(e: nat, lr0: real, decay: real)
    ensures RateAt(e, lr0, decay) == lr0 * Pow(decay, if e < 10 then 0 else e - 9)
  {
    if e > 0 {
      RateClosedForm(e - 1, lr0, decay);
      if e >= 10 {
        var k := if e - 1 < 10 then 0 else e - 10;
        assert e - 9 == k + 1;
        assert lr0 * Pow(decay, k) * decay == lr0 * (decay * Pow(decay, k));
      }
    }
  }

  /** With a decay factor in [0, 1] and a non-negative start, the rate never
      increases from one epoch to the next. */
  lemma RateNonIncreasing(e: nat, lr0: real, decay: real)
    requires lr0 >= 0.0 && 0.0 <= decay <= 1.0
    ensures 0.0 <= RateAt(e + 1, lr0, decay) <= RateAt(e, lr0, decay)
  {
    RateNonNegative(e, lr0, decay);
    var r := RateAt(e, lr0, decay);
    if e + 1 >= 10 {
      assert RateAt(e + 1, lr0, decay) == r * decay;
      assert r * decay <= r * 1.0;
    }
  }

  lemma {:induction false} RateNonNegative(e: nat, lr0: real, decay: real)
    requires lr0 >= 0.0 && 0.0 <= decay
    ensures RateAt(e, lr0, decay) >= 0.0
  {
    if e > 0 {
      RateNonNegative(e - 1, lr0, decay);
      var r := RateAt(e - 1, lr0, decay);
      assert r * decay >= 0.0;
    }
  }
}
