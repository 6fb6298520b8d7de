/**
 * Code-fence stripping of command content (cogs/messages.py, send and edit).
 * The content keeps the space that follows the command name, so the fence is
 * looked for at positions 1..4, not 0..3, and the check and the cut are
 * written with Python slices, whose bounds are clamped instead of failing.
 */
module Fence {
  const Marker: string := "```"

  /** A Python slice bound `i` normalised against a sequence of length `n`. */
  function Bound(i: int, n: nat): (k: nat)
    ensures k <= n
    ensures 0 <= i <= n ==> k == i
    ensures i < 0 && n + i >= 0 ==> k == n + i
    ensures i < 0 && n + i < 0 ==> k == 0
    ensures i > n ==> k == n
  {
    if i < 0 then (if n + i < 0 then 0 else n + i) else if i > n then n else i
  }

  /** Python's `s[start:stop]`. */
  function Slice<T>(s: seq<T>, start: int, stop: int): (r: seq<T>)
    ensures |r| <= |s|
    ensures |r| == if Bound(start, |s|) < Bound(stop, |s|) then Bound(stop, |s|) - Bound(start, |s|) else 0
  {
    var lo, hi := Bound(start, |s|), Bound(stop, |s|);
    if lo < hi then s[lo..hi] else []
  }

  /** `content[1:4] == '```' and content[-3:] == '```'` */
  predicate HasFence(c: string) {
    Slice(c, 1, 4) == Marker && Slice(c, -3, |c|) == Marker
  }

  /** `content[4:-3]` when the fence is there, the content unchanged otherwise; applied once. */
  function StripFence(c: string): string {
    if HasFence(c) then Slice(c, 4, -3) else c
  }

  /** The fence test in plain index terms: at least four characters, a marker after the first, a marker at the end. */
  lemma HasFenceIff(c: string)
    ensures HasFence(c) <==> |c| >= 4 && c[1..4] == Marker && c[|c| - 3..] == Marker
  {
    if |c| < 4 {
      assert |Slice(c, 1, 4)| < 3;
    } else {
      assert Slice(c, 1, 4) == c[1..4];
      assert Slice(c, -3, |c|) == c[|c| - 3..];
    }
  }

  /** What stripping yields, in plain index terms: the middle when fenced (empty below seven characters), else the input. */
  lemma StripFenceSpec(c: string)
    ensures StripFence(c) ==
      if |c| >= 4 && c[1..4] == Marker && c[|c| - 3..] == Marker
      then (if |c| >= 7 then c[4..|c| - 3] else [])
      else c
  {
    HasFenceIff(c);
    if HasFence(c) && |c| >= 7 {
      assert Slice(c, 4, -3) == c[4..|c| - 3];
    }
  }

  /** Stripping never lengthens the content, and removes exactly seven characters when it cuts anything. */
  lemma StripFenceLength(c: string)
    ensures |StripFence(c)| <= |c|
    ensures HasFence(c) ==> |StripFence(c)| == if |c| >= 7 then |c| - 7 else 0
    ensures !HasFence(c) ==> StripFence(c) == c
  {
    StripFenceSpec(c);
  }

  /** Round trip: wrapping any text in a fence after one leading character and stripping gives the text back. */
  lemma StripFenceRoundTrip(lead: char, x: string)
    ensures StripFence([lead] + Marker + x + Marker) == x
  {
    var c := [lead] + Marker + x + Marker;
    assert c[1..4] == Marker;
    assert c[|c| - 3..] == Marker;
    assert c[4..|c| - 3] == x;
    StripFenceSpec(c);
  }

  /** Without the leading character the fence sits at 0..3 and is not recognised. */
  lemma UnspacedFenceKept()
    ensures StripFence("```hi```") == "```hi```"
  {
    HasFenceIff("```hi```");
    assert "```hi```"[1..4] == "``h";
  }

  /** Only the outer fence goes: the inner one survives a single strip. */
  lemma StripOnceOnly()
    ensures StripFence(" ```a```b```") == "a```b"
    ensures StripFence(" ``` ```x``````") == " ```x```"
  {
    StripFenceRoundTrip(' ', "a```b");
    assert [' '] + Marker + "a```b" + Marker == " ```a```b```";
    StripFenceRoundTrip(' ', " ```x```");
    assert [' '] + Marker + " ```x```" + Marker == " ``` ```x``````";
  }

  /** Overlapping markers: four to six characters can pass the test and strip to nothing. */
  lemma OverlappingFenceEmpty()
    ensures StripFence(" ```") == ""
    ensures StripFence(" `````") == ""
  {
    StripFenceSpec(" ```");
    StripFenceSpec(" `````");
  }
}
