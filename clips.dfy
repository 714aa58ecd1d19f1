/**
 * The dirty-clip merger of udrm-fb.c: a list of update rectangles is folded
 * into one bounding rectangle, with the full frame as the fail-safe answer
 * for an absent list or an illegal result.
 *
 * The destination rectangle has 16-bit bounds, so the frame size (a 32-bit
 * value) is truncated when it is stored into it; that truncation is explicit
 * here (Trunc16).
 */
module Clips {
  import opened Uapi

  /** DRM_MODE_FB_DIRTY_ANNOTATE_COPY, bit 0 of the dirty flags. */
  predicate AnnotateCopy(flags: U32)
  {
    flags % 2 == 1
  }

  /**
   * What the caller guarantees: with annotate-copy the clips come in pairs
   * (an annotation and a region), so their number is even.
   */
  predicate PairedClips(src: Option<seq<ClipRect>>, flags: U32)
  {
    src.Some? && AnnotateCopy(flags) ==> |src.value| % 2 == 0
  }

  function Min(a: U16, b: U16): U16 { if a <= b then a else b }
  function Max(a: U16, b: U16): U16 { if a >= b then a else b }

  function Trunc16(x: U32): U16 { x % 0x1_0000 }

  /** The full-frame rectangle as stored in 16-bit bounds. */
  function FullFrame(maxWidth: U32, maxHeight: U32): ClipRect
  {
    ClipRect(0, 0, Trunc16(maxWidth), Trunc16(maxHeight))
  }

  /** The regions the merge reads: all clips, or only the odd-indexed ones under annotate-copy. */
  function Selected(src: seq<ClipRect>, annotate: bool): (s: seq<ClipRect>)
    ensures !annotate ==> s == src
    ensures annotate ==> |s| == |src| / 2
    ensures annotate ==> forall k :: 0 <= k < |s| ==> s[k] == src[2 * k + 1]
  {
    if !annotate then src
    else seq(|src| / 2, k requires 0 <= k < |src| / 2 => src[2 * k + 1])
  }

  /** The start value of the fold: x1/y1 at their maximum (~0), x2/y2 at zero. */
  const EmptyHull := ClipRect(0xFFFF, 0xFFFF, 0, 0)

  function Join(a: ClipRect, b: ClipRect): ClipRect
  {
    ClipRect(Min(a.x1, b.x1), Min(a.y1, b.y1), Max(a.x2, b.x2), Max(a.y2, b.y2))
  }

  /** Left fold of Join over the clips, in the order the loop visits them. */
  function Hull(s: seq<ClipRect>): ClipRect
  {
    if s == [] then EmptyHull else Join(Hull(s[..|s| - 1]), s[|s| - 1])
  }

  /** r is the bounding box of s: it contains every rectangle and each bound is attained. */
  ghost predicate IsBoundingBox(r: ClipRect, s: seq<ClipRect>)
  {
    && (forall i :: 0 <= i < |s| ==> r.x1 <= s[i].x1 && r.y1 <= s[i].y1 && s[i].x2 <= r.x2 && s[i].y2 <= r.y2)
    && (exists i :: 0 <= i < |s| && r.x1 == s[i].x1)
    && (exists i :: 0 <= i < |s| && r.y1 == s[i].y1)
    && (exists i :: 0 <= i < |s| && r.x2 == s[i].x2)
    && (exists i :: 0 <= i < |s| && r.y2 == s[i].y2)
  }

  /** The rejection test applied to the merged box. */
  predicate Illegal(r: ClipRect, maxWidth: U32, maxHeight: U32)
  {
    r.x2 > maxWidth || r.y2 > maxHeight || r.x1 >= r.x2 || r.y1 >= r.y2
  }

  /** The rectangle tinydrm_merge_clips stores into dst. */
  function Merged(src: Option<seq<ClipRect>>, flags: U32, maxWidth: U32, maxHeight: U32): ClipRect
    requires PairedClips(src, flags)
  {
    if src.None? || |src.value| == 0 then FullFrame(maxWidth, maxHeight)
    else
      var box := Hull(Selected(src.value, AnnotateCopy(flags)));
      if Illegal(box, maxWidth, maxHeight) then FullFrame(maxWidth, maxHeight) else box
  }

  /**
   * tinydrm_merge_clips. The loop follows the source: under annotate-copy
   * the index is advanced once more before each read.
   */
  method MergeClips(src: Option<seq<ClipRect>>, flags: U32, maxWidth: U32, maxHeight: U32)
    returns (dst: ClipRect)
    requires PairedClips(src, flags)
    ensures dst == Merged(src, flags, maxWidth, maxHeight)
  {
    if src.None? || |src.value| == 0 {
      dst := ClipRect(0, 0, Trunc16(maxWidth), Trunc16(maxHeight));
      return;
    }
    var clips := src.value;
    var annotate := AnnotateCopy(flags);
    ghost var sel := Selected(clips, annotate);
    dst := ClipRect(0xFFFF, 0xFFFF, 0, 0);
    var i := 0;
    while i < |clips|
      invariant i <= |clips|
      invariant annotate ==> i % 2 == 0
      invariant dst == Hull(sel[..if annotate then i / 2 else i])
    {
      ghost var k := if annotate then i / 2 else i;
      if annotate {
        i := i + 1;
      }
      assert sel[k] == clips[i];
      assert sel[..k + 1][..k] == sel[..k];
      dst := dst.(x1 := Min(dst.x1, clips[i].x1), x2 := Max(dst.x2, clips[i].x2),
                  y1 := Min(dst.y1, clips[i].y1), y2 := Max(dst.y2, clips[i].y2));
      i := i + 1;
    }
    assert sel[..if annotate then i / 2 else i] == sel;
    if dst.x2 > maxWidth || dst.y2 > maxHeight || dst.x1 >= dst.x2 || dst.y1 >= dst.y2 {
      dst := ClipRect(0, 0, Trunc16(maxWidth), Trunc16(maxHeight));
    }
  }

  // ---------------------------------------------------------------------
  // Properties

  /** The fold computes the bounding box: x1/y1 are the minima, x2/y2 the maxima over the clips. */
  lemma {:induction false} HullIsBoundingBox(s: seq<ClipRect>)
    requires s != []
    ensures IsBoundingBox(Hull(s), s)
  {
    var n := |s| - 1;
    if n == 0 {
      assert Hull(s) == Join(EmptyHull, s[0]);
      assert Hull(s) == s[0];
    } else {
      var p := s[..n];
      HullIsBoundingBox(p);
      var h := Hull(p);
      assert Hull(s) == Join(h, s[n]);
      forall i | 0 <= i < n ensures s[i] == p[i] { }
      var r := Hull(s);
      if r.x1 == h.x1 {
        var j :| 0 <= j < |p| && h.x1 == p[j].x1;
        assert r.x1 == s[j].x1;
      } else {
        assert r.x1 == s[n].x1;
      }
      if r.y1 == h.y1 {
        var j :| 0 <= j < |p| && h.y1 == p[j].y1;
        assert r.y1 == s[j].y1;
      } else {
        assert r.y1 == s[n].y1;
      }
      if r.x2 == h.x2 {
        var j :| 0 <= j < |p| && h.x2 == p[j].x2;
        assert r.x2 == s[j].x2;
      } else {
        assert r.x2 == s[n].x2;
      }
      if r.y2 == h.y2 {
        var j :| 0 <= j < |p| && h.y2 == p[j].y2;
        assert r.y2 == s[j].y2;
      } else {
        assert r.y2 == s[n].y2;
      }
    }
  }

  /** The bounding box of a list is unique, so "the" bounding box is well defined. */
  lemma BoundingBoxUnique(r1: ClipRect, r2: ClipRect, s: seq<ClipRect>)
    requires IsBoundingBox(r1, s) && IsBoundingBox(r2, s)
    ensures r1 == r2
  {
    var i :| 0 <= i < |s| && r1.x1 == s[i].x1;
    var j :| 0 <= j < |s| && r2.x1 == s[j].x1;
    assert r1.x1 == r2.x1;
    i :| 0 <= i < |s| && r1.y1 == s[i].y1;
    j :| 0 <= j < |s| && r2.y1 == s[j].y1;
    assert r1.y1 == r2.y1;
    i :| 0 <= i < |s| && r1.x2 == s[i].x2;
    j :| 0 <= j < |s| && r2.x2 == s[j].x2;
    assert r1.x2 == r2.x2;
    i :| 0 <= i < |s| && r1.y2 == s[i].y2;
    j :| 0 <= j < |s| && r2.y2 == s[j].y2;
  }

  /** An absent or empty list gives the full frame. */
  lemma MergeAbsentIsFullFrame(src: Option<seq<ClipRect>>, flags: U32, maxWidth: U32, maxHeight: U32)
    requires src.None? || src.value == []
    ensures Merged(src, flags, maxWidth, maxHeight) == FullFrame(maxWidth, maxHeight)
  {
  }

  /**
   * A non-empty list gives the bounding box of the regions read, unless that
   * box leaves the frame or is empty, in which case the full frame.
   */
  lemma MergeIsBoundingBoxOrFullFrame(src: seq<ClipRect>, flags: U32, maxWidth: U32, maxHeight: U32)
    requires src != [] && PairedClips(Some(src), flags)
    ensures var r := Merged(Some(src), flags, maxWidth, maxHeight);
            var sel := Selected(src, AnnotateCopy(flags));
            (r == FullFrame(maxWidth, maxHeight) && Illegal(Hull(sel), maxWidth, maxHeight))
            || (IsBoundingBox(r, sel) && !Illegal(r, maxWidth, maxHeight))
  {
    var sel := Selected(src, AnnotateCopy(flags));
    assert sel != [] by {
      if AnnotateCopy(flags) { assert |src| >= 2; }
    }
    HullIsBoundingBox(sel);
  }

  /** For a frame that fits 16 bits, the result is always a legal non-empty rectangle inside it. */
  lemma MergeIsLegal(src: Option<seq<ClipRect>>, flags: U32, maxWidth: U32, maxHeight: U32)
    requires PairedClips(src, flags)
    requires 0 < maxWidth < 0x1_0000 && 0 < maxHeight < 0x1_0000
    ensures var r := Merged(src, flags, maxWidth, maxHeight);
            0 <= r.x1 < r.x2 <= maxWidth && 0 <= r.y1 < r.y2 <= maxHeight
  {
  }

  /** Merging the full frame itself gives the full frame. */
  lemma MergeFullFrameIsFullFrame(flags: U32, maxWidth: U32, maxHeight: U32)
    requires !AnnotateCopy(flags)
    requires 0 < maxWidth < 0x1_0000 && 0 < maxHeight < 0x1_0000
    ensures Merged(Some([FullFrame(maxWidth, maxHeight)]), flags, maxWidth, maxHeight) == FullFrame(maxWidth, maxHeight)
  {
    var f := FullFrame(maxWidth, maxHeight);
    assert [f][..0] == [];
  }

  // ---------------------------------------------------------------------
  // The annotate-copy index walk as written

  /** The indices the loop reads under annotate-copy, starting from loop index i, for n clips. */
  function AnnotateReads(i: nat, n: nat): seq<nat>
    decreases n - i
  {
    if i >= n then [] else [i + 1] + AnnotateReads(i + 2, n)
  }

  predicate AllBelow(s: seq<nat>, n: nat)
  {
    forall k :: 0 <= k < |s| ==> s[k] < n
  }

  /**
   * Under annotate-copy every index read is inside the n-clip array exactly
   * when n is even; for odd n the last read is src[n], one past the end.
   */
  lemma {:induction false} AnnotateReadsInBounds(i: nat, n: nat)
    requires i % 2 == 0
    ensures AllBelow(AnnotateReads(i, n), n) <==> (i >= n || n % 2 == 0)
    ensures i < n && n % 2 == 1 ==> AnnotateReads(i, n)[|AnnotateReads(i, n)| - 1] == n
    decreases n - i
  {
    if i < n {
      AnnotateReadsInBounds(i + 2, n);
      var r := AnnotateReads(i, n);
      var t := AnnotateReads(i + 2, n);
      assert r == [i + 1] + t;
      if n % 2 == 1 {
        if i + 2 >= n {
          assert i + 1 == n;
          assert r[0] == n;
        } else {
          var j :| 0 <= j < |t| && t[j] >= n;
          assert r[j + 1] == t[j];
          assert r[|r| - 1] == t[|t| - 1];
        }
      } else {
        assert i + 1 < n;
        assert AllBelow(t, n);
        forall k | 0 <= k < |r| ensures r[k] < n {
          if k > 0 { assert r[k] == t[k - 1]; }
        }
      }
    }
  }
}
