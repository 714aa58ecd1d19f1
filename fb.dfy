/**
 * Framebuffer callbacks of udrm-fb.c: the id registry (an idr table from
 * framebuffer id to framebuffer), the create and destroy events, and the
 * dirty flush that turns a clip list into a one-clip dirty event.
 */
module Fb {
  import opened Uapi
  import opened Errno
  import opened Udrm
  import opened Clips
  import opened Dev

  /** The largest id an idr table holds (INT_MAX). */
  const IntMax: int := 0x7FFF_FFFF

  // ---------------------------------------------------------------------
  // The registry

  predicate Holds(idr: map<U32, Framebuffer>, fb: Framebuffer, id: U32)
  {
    id in idr && idr[id] == fb
  }

  /** Every framebuffer in the table sits at its own id. */
  ghost predicate RegistryValid(idr: map<U32, Framebuffer>)
  {
    forall id :: id in idr ==> idr[id].id == id
  }

  /** A table after an allocation attempt, with idr_alloc's result. */
  datatype Alloc = Alloc(idr: map<U32, Framebuffer>, ret: int)

  /**
   * idr_alloc(idr, fb, fb.id, fb.id + 1): only the slot at exactly the
   * framebuffer's id may be used. The table's own allocation failure is an input.
   */
  function IdrAlloc(idr: map<U32, Framebuffer>, fb: Framebuffer, noMem: bool): (a: Alloc)
    ensures a.ret >= 0 ==> a.ret == fb.id && fb.id !in idr && a.idr == idr[fb.id := fb]
    ensures a.ret < 0 ==> a.idr == idr
    ensures a.ret == -ENOSPC <==> fb.id <= IntMax && fb.id in idr
    ensures a.ret >= 0 <==> fb.id <= IntMax && fb.id !in idr && !noMem
  {
    if fb.id > IntMax then Alloc(idr, -EINVAL)
    else if fb.id in idr then Alloc(idr, -ENOSPC)
    else if noMem then Alloc(idr, -ENOMEM)
    else Alloc(idr[fb.id := fb], fb.id)
  }

  /**
   * The least id whose entry is fb, found by walking the ids upward as
   * idr_for_each_entry does; None when no entry is fb.
   */
  method FindFb(idr: map<U32, Framebuffer>, fb: Framebuffer) returns (found: Option<U32>)
    ensures found.Some? ==> Holds(idr, fb, found.value)
    ensures found.Some? ==> forall j: U32 :: j < found.value ==> !Holds(idr, fb, j)
    ensures found.None? ==> forall j :: j in idr ==> idr[j] != fb
  {
    var id := 0;
    while id < 0x1_0000_0000 && !Holds(idr, fb, id)
      invariant 0 <= id <= 0x1_0000_0000
      invariant forall j: U32 :: j < id ==> !Holds(idr, fb, j)
    {
      id := id + 1;
    }
    if id < 0x1_0000_0000 {
      found := Some(id);
    } else {
      found := None;
      forall j | j in idr
        ensures idr[j] != fb
      {
        assert !Holds(idr, fb, j);
      }
    }
  }

  /**
   * In a valid table a framebuffer can only be at its own id, so inserting a
   * new one keeps the table valid, makes its id the only one it is found at,
   * and removing that id restores the table.
   */
  lemma RegistryRoundTrip(idr: map<U32, Framebuffer>, fb: Framebuffer)
    requires RegistryValid(idr) && fb.id !in idr && fb.id <= IntMax
    ensures var a := IdrAlloc(idr, fb, false);
            && a.ret == fb.id && RegistryValid(a.idr)
            && (forall j :: Holds(a.idr, fb, j) <==> j == fb.id)
            && a.idr - {fb.id} == idr
  {
    var a := IdrAlloc(idr, fb, false);
    assert a.idr - {fb.id} == idr;
  }

  // ---------------------------------------------------------------------
  // The create event

  const NoPlane := PlaneLayout(0, 0, 0)

  /**
   * The drm_mode_fb_cmd2 of a create event: the framebuffer's fields and the
   * layouts of its leading backed planes, the other slots left zero.
   */
  function CreateCmd(fb: Framebuffer): (f: FbCmd)
    ensures |f.planes| == MaxPlanes
    ensures forall k :: 0 <= k < |fb.planes| && k < MaxPlanes ==> f.planes[k] == fb.planes[k]
    ensures forall k :: |fb.planes| <= k < MaxPlanes ==> f.planes[k] == NoPlane
  {
    FbCmd(fb.id, fb.width, fb.height, fb.pixelFormat, fb.flags,
          seq(MaxPlanes, k requires 0 <= k < MaxPlanes => if k < |fb.planes| then fb.planes[k] else NoPlane))
  }

  /** Fills the event's command, copying plane layouts until the first plane without a buffer object. */
  method BuildCreateCmd(fb: Framebuffer) returns (f: FbCmd)
    ensures f == CreateCmd(fb)
  {
    var planes := [NoPlane, NoPlane, NoPlane, NoPlane];
    var i := 0;
    while i < MaxPlanes && i < |fb.planes|
      invariant 0 <= i <= MaxPlanes && i <= |fb.planes|
      invariant |planes| == MaxPlanes
      invariant forall k :: 0 <= k < i ==> planes[k] == fb.planes[k]
      invariant forall k :: i <= k < MaxPlanes ==> planes[k] == NoPlane
    {
      planes := planes[i := fb.planes[i]];
      i := i + 1;
    }
    f := FbCmd(fb.id, fb.width, fb.height, fb.pixelFormat, fb.flags, planes);
  }

  /** The inputs of a create event: the table's allocation failure and the send's inputs. */
  datatype CreateEnv = CreateEnv(idrNoMem: bool, send: SendEnv)

  datatype CreateStep = CreateStep(idr: map<U32, Framebuffer>, step: Step)

  /**
   * udrm_fb_create_event: register fb at its id, then post the create event.
   * A result below 1 is returned at once, so id 0 is registered but not sent.
   */
  function CreateSpec(idr: map<U32, Framebuffer>, c: Channel, fb: Framebuffer, env: CreateEnv): CreateStep
  {
    var a := IdrAlloc(idr, fb, env.idrNoMem);
    if a.ret < 1 then CreateStep(a.idr, Step(c, a.ret))
    else CreateStep(a.idr, SendSpec(c, FbCreate(CreateCmd(fb)), env.send))
  }

  method CreateEvent(d: Device, fb: Framebuffer, env: CreateEnv) returns (ret: int)
    modifies d`idr, d`ev, d`eventRet, d`done
    ensures CreateStep(d.idr, Step(ChannelOf(d), ret)) == CreateSpec(old(d.idr), old(ChannelOf(d)), fb, env)
  {
    var cmd := BuildCreateCmd(fb);
    var a := IdrAlloc(d.idr, fb, env.idrNoMem);
    d.idr := a.idr;
    if a.ret < 1 {
      return a.ret;
    }
    ret := SendEvent(d, FbCreate(cmd), env.send);
  }

  /** The result of the framework's framebuffer allocation. */
  datatype FbAlloc = Created(fb: Framebuffer) | Failed(err: int)

  /**
   * udrm_fb_create: a framebuffer the framework made is announced and
   * returned whatever the announcement's result; a failure is passed on.
   */
  method Create(d: Device, made: FbAlloc, env: CreateEnv) returns (result: FbAlloc)
    modifies d`idr, d`ev, d`eventRet, d`done
    ensures result == made
    ensures made.Failed? ==> d.idr == old(d.idr) && ChannelOf(d) == old(ChannelOf(d))
    ensures made.Created? ==>
              var s := CreateSpec(old(d.idr), old(ChannelOf(d)), made.fb, env);
              d.idr == s.idr && ChannelOf(d) == s.step.ch
  {
    if made.Failed? {
      return made;
    }
    var r := CreateEvent(d, made.fb, env);
    result := made;
  }

  /** A create keeps the table valid and sends its event only after the id is registered. */
  lemma CreateKeepsRegistry(idr: map<U32, Framebuffer>, c: Channel, fb: Framebuffer, env: CreateEnv)
    requires RegistryValid(idr)
    ensures var s := CreateSpec(idr, c, fb, env);
            && RegistryValid(s.idr)
            && (s.idr == idr || (fb.id !in idr && s.idr == idr[fb.id := fb]))
            && (s.step.ret == -ENOSPC <==> fb.id <= IntMax && fb.id in idr)
            && (s.step.ch != c ==> Holds(s.idr, fb, fb.id) && fb.id >= 1)
  {
    var a := IdrAlloc(idr, fb, env.idrNoMem);
    if a.ret >= 1 {
      SendSpecNeverEnospc(c, FbCreate(CreateCmd(fb)), env.send);
    }
  }

  lemma SendSpecNeverEnospc(c: Channel, e: Event, env: SendEnv)
    requires WellFormed(e)
    ensures SendSpec(c, e, env).ret != -ENOSPC
  {
  }

  /** A framebuffer with id 0 is registered, yet no event is sent and 0 is returned. */
  lemma CreateIdZeroSilent(idr: map<U32, Framebuffer>, c: Channel, fb: Framebuffer, env: CreateEnv)
    requires fb.id == 0 && 0 !in idr && !env.idrNoMem
    ensures CreateSpec(idr, c, fb, env) == CreateStep(idr[0 := fb], Step(c, 0))
  {
  }

  /** The create event carries the framebuffer's fields and has a wire form of 112 bytes. */
  lemma CreateEventShape(fb: Framebuffer)
    ensures var e := FbCreate(CreateCmd(fb));
            && WellFormed(e) && TypeCode(e) == EventFbCreate && Length(e) == HeaderSize + FbCmdSize
            && e.fb.fbId == fb.id && e.fb.width == fb.width && e.fb.height == fb.height
            && Decode(Encode(e)) == Some(e)
  {
    DecodeEncode(FbCreate(CreateCmd(fb)));
  }

  // ---------------------------------------------------------------------
  // The destroy event

  /**
   * udrm_fb_destroy: find the entry holding fb, remove it, post its id and
   * release the framebuffer. When no entry holds fb nothing happens at all,
   * and the framebuffer is not released either.
   */
  method Destroy(d: Device, fb: Framebuffer, env: SendEnv) returns (reported: Option<U32>)
    modifies d`idr, d`ev, d`eventRet, d`done, d`calls
    ensures reported.None? <==> forall j :: j in old(d.idr) ==> old(d.idr)[j] != fb
    ensures reported.None? ==> unchanged(d)
    ensures reported.Some? ==>
              var id := reported.value;
              && Holds(old(d.idr), fb, id)
              && (forall j: U32 :: j < id ==> !Holds(old(d.idr), fb, j))
              && d.idr == old(d.idr) - {id}
              && ChannelOf(d) == SendSpec(old(ChannelOf(d)), FbDestroy(id), env).ch
              && d.calls == old(d.calls) + [FbCmaDestroy(fb.id)]
    ensures reported.Some? && old(RegistryValid(d.idr)) ==> reported.value == fb.id && RegistryValid(d.idr)
  {
    reported := FindFb(d.idr, fb);
    if reported.None? {
      return;
    }
    var id := reported.value;
    d.idr := d.idr - {id};
    var r := SendEvent(d, FbDestroy(id), env);
    d.calls := d.calls + [FbCmaDestroy(fb.id)];
  }

  // ---------------------------------------------------------------------
  // The dirty flush

  /**
   * tinydrm_check_dirty: a flush is accepted only while the pipe is prepared
   * and fb is the framebuffer being scanned out; before the first flush the
   * clip list is dropped so the whole frame goes out.
   */
  method CheckDirty(d: Device, fb: Framebuffer, clips: Option<seq<ClipRect>>)
    returns (ok: bool, clipsOut: Option<seq<ClipRect>>)
    ensures ok <==> d.prepared && d.planeFb == fb
    ensures ok && !d.enabled ==> clipsOut == None
    ensures !(ok && !d.enabled) ==> clipsOut == clips
  {
    clipsOut := clips;
    if !d.prepared {
      return false, clipsOut;
    }
    if d.planeFb != fb {
      return false, clipsOut;
    }
    if !d.enabled {
      clipsOut := None;
    }
    ok := true;
  }

  /** The clip list the merge sees: none before the first flush. */
  function SeenClips(enabled: bool, clips: Option<seq<ClipRect>>): Option<seq<ClipRect>>
  {
    if enabled then clips else None
  }

  /** The single clip a flush sends: the merged rows, always at full width. */
  function DirtyClip(fb: Framebuffer, flags: U32, clips: Option<seq<ClipRect>>): ClipRect
    requires PairedClips(clips, flags)
  {
    Merged(clips, flags, fb.width, fb.height).(x1 := 0, x2 := Trunc16(fb.width))
  }

  function DirtyEvent(fb: Framebuffer, flags: U32, color: U32, clips: Option<seq<ClipRect>>): Event
    requires PairedClips(clips, flags)
  {
    FbDirty(DirtyCmd(fb.id, flags, color), [DirtyClip(fb, flags, clips)])
  }

  /** The inputs of a flush: the fbdev create event's, the event allocation's and the send's. */
  datatype DirtyEnv = DirtyEnv(fbdev: CreateEnv, allocFails: bool, send: SendEnv)

  /**
   * udrm_fb_dirty. `mid` is the mailbox after the fbdev framebuffer's create
   * event (sent once, on the first accepted flush while an fbdev helper exists).
   */
  method Dirty(d: Device, fb: Framebuffer, flags: U32, color: U32, clips: Option<seq<ClipRect>>, env: DirtyEnv)
    returns (ret: int, ghost mid: Channel)
    requires PairedClips(clips, flags)
    requires d.hasFbdevHelper ==> d.fbdevFb != null
    modifies d`enabled, d`fbdevFbSent, d`idr, d`ev, d`eventRet, d`done
    ensures !(old(d.prepared) && old(d.planeFb) == fb) ==> ret == -EINVAL && unchanged(d)
    ensures old(d.prepared) && old(d.planeFb) == fb ==>
              && d.enabled
              && (if old(d.hasFbdevHelper && !d.fbdevFbSent) then
                    var s := CreateSpec(old(d.idr), old(ChannelOf(d)), old(d.fbdevFb), env.fbdev);
                    d.fbdevFbSent && d.idr == s.idr && mid == s.step.ch
                  else
                    d.fbdevFbSent == old(d.fbdevFbSent) && d.idr == old(d.idr) && mid == old(ChannelOf(d)))
              && (env.allocFails ==> ret == -ENOMEM && ChannelOf(d) == mid)
              && (!env.allocFails ==>
                    Step(ChannelOf(d), ret)
                    == SendSpec(mid, DirtyEvent(fb, flags, color, SeenClips(old(d.enabled), clips)), env.send))
  {
    mid := ChannelOf(d);
    var ok, seen := CheckDirty(d, fb, clips);
    if !ok {
      return -EINVAL, mid;
    }
    if d.hasFbdevHelper && !d.fbdevFbSent {
      var r := CreateEvent(d, d.fbdevFb, env.fbdev);
      d.fbdevFbSent := true;
    }
    d.enabled := true;
    mid := ChannelOf(d);
    var clip := MergeClips(seen, flags, fb.width, fb.height);
    clip := clip.(x1 := 0, x2 := Trunc16(fb.width));
    if env.allocFails {
      return -ENOMEM, mid;
    }
    ret := SendEvent(d, FbDirty(DirtyCmd(fb.id, flags, color), [clip]), env.send);
  }

  /**
   * A flush sends one dirty event of type 5 and length header + command +
   * one clip, whose clip spans the full width.
   */
  lemma DirtyEventShape(fb: Framebuffer, flags: U32, color: U32, clips: Option<seq<ClipRect>>)
    requires PairedClips(clips, flags)
    ensures var e := DirtyEvent(fb, flags, color, clips);
            && WellFormed(e) && TypeCode(e) == EventFbDirty
            && Length(e) == HeaderSize + DirtyCmdSize + ClipSize == 40
            && e.cmd == DirtyCmd(fb.id, flags, color)
            && |e.clips| == 1 && e.clips[0].x1 == 0 && e.clips[0].x2 == Trunc16(fb.width)
  {
  }

  /**
   * For a frame that fits 16 bits, the sent clip spans the full width and a
   * non-empty band of rows inside the frame; the rows are those of the
   * merged clip list.
   */
  lemma DirtyClipInFrame(fb: Framebuffer, flags: U32, clips: Option<seq<ClipRect>>)
    requires PairedClips(clips, flags)
    requires 0 < fb.width < 0x1_0000 && 0 < fb.height < 0x1_0000
    ensures var r := DirtyClip(fb, flags, clips);
            var m := Merged(clips, flags, fb.width, fb.height);
            && r.x1 == 0 && r.x2 == fb.width
            && 0 <= r.y1 < r.y2 <= fb.height
            && r.y1 == m.y1 && r.y2 == m.y2
  {
    MergeIsLegal(clips, flags, fb.width, fb.height);
  }

  /** Without clips (and so on every first flush) the whole frame is sent. */
  lemma FirstFlushIsFullFrame(fb: Framebuffer, flags: U32, clips: Option<seq<ClipRect>>)
    requires PairedClips(clips, flags)
    ensures DirtyClip(fb, flags, SeenClips(false, clips)) == FullFrame(fb.width, fb.height)
  {
    MergeAbsentIsFullFrame(None, flags, fb.width, fb.height);
  }
}
