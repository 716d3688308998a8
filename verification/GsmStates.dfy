/**
 The coder state of private.h.  One object serves as an encoder or as a decoder;
 gsm_create clears all of it and sets the lag memory to 40.
 */
module GsmStates {
  import opened GsmArith

  class GsmState {
    const dp0: array<word>       // 280 words, the long-term history is dp0[0..120]
    const u: array<word>         // analysis filter memory
    const v: array<word>         // synthesis filter memory, v[8] is written and never read
    const LARpp0: array<word>    // the two banks of decoded log-area ratios
    const LARpp1: array<word>
    var j: int                   // the bank the next frame overwrites
    var nrp: word                // the last valid lag
    var msr: word                // de-emphasis memory

    ghost predicate Valid()
      reads this
    {
      && dp0.Length == 280 && u.Length == 8 && v.Length == 9
      && LARpp0.Length == 8 && LARpp1.Length == 8
      && dp0 != u && dp0 != v && dp0 != LARpp0 && dp0 != LARpp1
      && u != v && u != LARpp0 && u != LARpp1
      && v != LARpp0 && v != LARpp1
      && LARpp0 != LARpp1
      && 0 <= j <= 1
      && 40 <= nrp <= 120
    }

    ghost function Buffers(): set<object> {
      {dp0, u, v, LARpp0, LARpp1}
    }

    constructor ()
      ensures Valid() && fresh(Buffers())
      ensures j == 0 && nrp == 40 && msr == 0
      ensures u[..] == seq(8, _ => 0) && v[..] == seq(9, _ => 0)
      ensures LARpp0[..] == seq(8, _ => 0) && LARpp1[..] == seq(8, _ => 0)
      ensures dp0[..] == seq(280, _ => 0)
    {
      dp0 := new word[280](_ => 0);
      u := new word[8](_ => 0);
      v := new word[9](_ => 0);
      LARpp0 := new word[8](_ => 0);
      LARpp1 := new word[8](_ => 0);
      j, nrp, msr := 0, 40, 0;
    }

    /** The bank that the frame about to be processed fills with its decoded ratios. */
    function Bank(): array<word>
      reads this
    {
      if j == 0 then LARpp0 else LARpp1
    }

    /** The bank left by the previous frame. */
    function OtherBank(): array<word>
      reads this
    {
      if j == 0 then LARpp1 else LARpp0
    }
  }
}
