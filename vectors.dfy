/**
  The one std::vector operation whose meaning the entity store relies on
  beyond push_back (which is `s + [x]`): erasing the element at a position,
  and erasing at the same position several times in a row, which is how
  a contiguous range of rows is removed.
 */
module Vectors {

  /** `v.erase(v.begin() + pos)`: the element at `pos` is gone, everything
      before it stays where it was, everything after it moves down by one. */
  function Erase<T>(s: seq<T>, pos: nat): (r: seq<T>)
    requires pos < |s|
    ensures |r| == |s| - 1
    ensures forall k :: 0 <= k < pos ==> r[k] == s[k]
    ensures forall k :: pos <= k < |r| ==> r[k] == s[k + 1]
  {
    s[..pos] + s[pos + 1..]
  }

  /** Erasing at `pos`, `n` times one after the other: the state of a
      sequence after the first `n` rounds of the removal loop. */
  function EraseRepeatedly<T>(s: seq<T>, pos: nat, n: nat): (r: seq<T>)
    requires pos + n <= |s|
    ensures |r| == |s| - n
  {
    if n == 0 then s else Erase(EraseRepeatedly(s, pos, n - 1), pos)
  }

  /** `n` erasures at one position remove exactly the `n` elements that
      started at that position, and keep the rest in order. */
  lemma {:induction false} EraseRepeatedlyRemovesRange<T>(s: seq<T>, pos: nat, n: nat)
    requires pos + n <= |s|
    ensures EraseRepeatedly(s, pos, n) == s[..pos] + s[pos + n..]
  {
    if n > 0 {
      EraseRepeatedlyRemovesRange(s, pos, n - 1);
      var before := s[..pos] + s[pos + n - 1..];
      assert before[..pos] == s[..pos];
      assert before[pos + 1..] == s[pos + n..];
    }
  }
}
