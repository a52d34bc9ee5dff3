/** src/day6.rs: the end offset of the first window of `length` characters that
    are all different (`windows(length).find_position(..)`); a panic is `None`. */
module Day6 {
  import opened Wrappers

  /** `to_set`: the characters of a slice as a set. */
  function ToSet(w: seq<char>): set<char>
  {
    set c | c in w
  }

  predicate AllDistinct(w: seq<char>)
  {
    forall i, j :: 0 <= i < j < |w| ==> w[i] != w[j]
  }

  /** The window of `length` characters at p lies in the input and is all distinct. */
  predicate IsMarkerAt(input: seq<char>, length: nat, p: nat)
  {
    p + length <= |input| && AllDistinct(input[p..p + length])
  }

  /** The first qualifying window starting at p or later: the test of the source,
      that the window's set has `length` elements. */
  function FindFrom(input: seq<char>, length: nat, p: nat): Option<nat>
    requires p + length <= |input| + 1
    decreases |input| + 1 - p - length
  {
    if p + length > |input| then None
    else if |ToSet(input[p..p + length])| == length then Some(p)
    else FindFrom(input, length, p + 1)
  }

  /** `find_marker_offset`: the position of the first all-distinct window plus
      its length.  `windows(0)` panics, and so does the `unwrap` when no window
      qualifies. */
  function FindMarkerOffset(input: seq<char>, length: nat): (r: Option<nat>)
    ensures r.Some? ==>
              && 0 < length <= r.value <= |input|
              && IsMarkerAt(input, length, r.value - length)
              && forall p: nat :: p < r.value - length ==> !IsMarkerAt(input, length, p)
    ensures r.None? <==> length == 0 || forall p: nat :: !IsMarkerAt(input, length, p)
  {
    if length == 0 || length > |input| then None
    else
      FindFromIsFirst(input, length, 0);
      match FindFrom(input, length, 0)
      case None => None
      case Some(p) => Some(p + length)
  }

  lemma {:induction false} ToSetSize(w: seq<char>)
    ensures |ToSet(w)| <= |w|
    ensures |ToSet(w)| == |w| <==> AllDistinct(w)
  {
    if |w| > 0 {
      var n := |w| - 1;
      var init := w[..n];
      ToSetSize(init);
      assert ToSet(w) == ToSet(init) + {w[n]};
      if w[n] in ToSet(init) {
        var k :| 0 <= k < n && init[k] == w[n];
        assert w[k] == w[n];
      } else {
        assert forall k :: 0 <= k < n ==> w[k] != w[n] by {
          forall k | 0 <= k < n ensures w[k] != w[n] {
            assert init[k] in ToSet(init);
          }
        }
        assert AllDistinct(w) <==> AllDistinct(init);
      }
    }
  }

  /** `FindFrom` returns the first position from p on whose window is all distinct. */
  lemma {:induction false} FindFromIsFirst(input: seq<char>, length: nat, p: nat)
    requires p + length <= |input| + 1
    ensures FindFrom(input, length, p).Some? ==>
              && p <= FindFrom(input, length, p).value
              && IsMarkerAt(input, length, FindFrom(input, length, p).value)
              && forall q: nat :: p <= q < FindFrom(input, length, p).value ==> !IsMarkerAt(input, length, q)
    ensures FindFrom(input, length, p).None? ==> forall q: nat :: p <= q ==> !IsMarkerAt(input, length, q)
    decreases |input| + 1 - p - length
  {
    if p + length <= |input| {
      ToSetSize(input[p..p + length]);
      if |ToSet(input[p..p + length])| != length {
        FindFromIsFirst(input, length, p + 1);
      }
    }
  }

  /** `day6a`: the start-of-packet marker, four distinct characters. */
  function Day6a(input: seq<char>): (r: Option<nat>)
    ensures r.Some? ==>
              && 4 <= r.value <= |input|
              && AllDistinct(input[r.value - 4..r.value])
              && forall p: nat :: p < r.value - 4 ==> !IsMarkerAt(input, 4, p)
    ensures r.None? <==> forall p: nat :: !IsMarkerAt(input, 4, p)
  {
    FindMarkerOffset(input, 4)
  }

  /** `day6b`: the start-of-message marker, fourteen distinct characters. */
  function Day6b(input: seq<char>): (r: Option<nat>)
    ensures r.Some? ==>
              && 14 <= r.value <= |input|
              && AllDistinct(input[r.value - 14..r.value])
              && forall p: nat :: p < r.value - 14 ==> !IsMarkerAt(input, 14, p)
    ensures r.None? <==> forall p: nat :: !IsMarkerAt(input, 14, p)
  {
    FindMarkerOffset(input, 14)
  }

  /** A message marker ends a window of fourteen distinct characters, whose last
      four are distinct too, so the packet marker ends no later. */
  lemma PacketMarkerNoLater(input: seq<char>)
    requires Day6b(input).Some?
    ensures Day6a(input).Some? && Day6a(input).value <= Day6b(input).value
  {
    var e := Day6b(input).value;
    var w := input[e - 4..e];
    assert AllDistinct(w) by {
      forall i, j | 0 <= i < j < 4 ensures w[i] != w[j] {
        assert w[i] == input[e - 14..e][10 + i] && w[j] == input[e - 14..e][10 + j];
      }
    }
    assert IsMarkerAt(input, 4, e - 4);
  }
}
