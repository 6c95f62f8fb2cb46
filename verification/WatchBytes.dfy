/** Which bytes a watchpoint's control word selects (`watchpoint.c`). */
module WatchBytes {
  import opened Engine

  /** Bit `i` of a control word's byte-address-select field. */
  predicate Selects(ctl: bv64, i: bv64)
    requires i < 8
  {
    (ctl >> (5 + i)) & 1 == 1
  }

  /** Inside the double word exactly the bytes `low` to `low + len - 1` are selected. */
  lemma SelectsBytes(low: bv64, len: bv64, lsc: bv64, i: bv64)
    requires low < 8 && len <= 8 && lsc < 4 && i < 8
    ensures Selects(WatchControl(low, len, lsc), i) <==> low <= i < low + len
  {
  }

  /** No other field of the register is touched exactly if the watched bytes lie in one double word:
      beyond it they spill into the fields above. */
  lemma NoSpillIff(low: bv64, len: bv64, lsc: bv64)
    requires low < 8 && len <= 8 && lsc < 4
    ensures WatchControl(low, len, lsc) >> 13 == 0 <==> low + len <= 8
    ensures WatchControl(low, len, lsc) & 0x1f == (lsc << 3) | 5
  {
  }
}
