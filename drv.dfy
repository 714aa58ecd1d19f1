/**
 * The device lifecycle of udrm-drv.c: registration of the DRM device from
 * a create request (with its unwind path), teardown, the release work that
 * waits for the last DRM file to close, the create ioctl that opens the
 * mailbox, last close, the deferred flush and the flag check of the PRIME
 * export ioctl.
 *
 * Each DRM framework call is abstract: its result is an input, and the call
 * itself is appended to the device's ghost trace of framework calls.
 */
module Drv {
  import opened Uapi
  import opened Errno
  import opened Udrm
  import opened Dev
  import opened Clips
  import opened Fb
  import opened Pipe

  // ---------------------------------------------------------------------
  // The driver name

  /** The C string at the start of s: the bytes before the first NUL, or all of s when it has none. */
  function CString(s: Bytes): (r: Bytes)
    ensures |r| <= |s| && r == s[..|r|]
    ensures forall i :: 0 <= i < |r| ==> r[i] != 0
    ensures |r| < |s| ==> s[|r|] == 0
  {
    if s == [] || s[0] == 0 then [] else [s[0]] + CString(s[1..])
  }

  /** A NUL inside s ends the string there, whatever follows s. */
  lemma {:induction false} CStringStopsAtNul(s: Bytes, following: Bytes)
    requires 0 in s
    ensures CString(s + following) == CString(s)
  {
    if s[0] != 0 {
      assert (s + following)[1..] == s[1..] + following;
      CStringStopsAtNul(s[1..], following);
    }
  }

  /**
   * The name as registration copies it with kstrdup: the string starting at
   * the request's name field, which runs on into the bytes that follow the
   * field in the request when the field holds no NUL.
   */
  function KstrdupAsWritten(name: Bytes, following: Bytes): (r: Bytes)
    ensures |r| <= |name| + |following|
    ensures 0 in name ==> r == CString(name)
  {
    var s := name + following;
    if 0 in name then
      CStringStopsAtNul(name, following);
      CString(s)
    else
      CString(s)
  }

  /**
   * An 80-byte name field with no NUL, followed by a mode whose clock is 66
   * (little-endian 42 00 00 00), yields an 81-byte name that includes a byte of the mode.
   */
  lemma NameOverrun()
    ensures var name := seq(MaxNameSize, _ => 0x41);
            var r := KstrdupAsWritten(name, [0x42, 0, 0, 0]);
            |r| == MaxNameSize + 1 && r[MaxNameSize] == 0x42
  {
    var name := seq(MaxNameSize, _ => 0x41);
    var s := name + [0x42, 0, 0, 0];
    assert forall i :: 0 <= i < MaxNameSize + 1 ==> s[i] != 0;
    assert s[MaxNameSize + 1] == 0;
  }

  /** The name bounded by the field (kstrndup of UDRM_MAX_NAME_SIZE bytes). */
  function DriverName(name: Bytes): (r: Bytes)
    ensures |r| <= MaxNameSize && |r| <= |name|
    ensures r == name[..|r|]
    ensures forall i :: 0 <= i < |r| ==> r[i] != 0
    ensures |r| < |name| && |r| < MaxNameSize ==> name[|r|] == 0
  {
    CString(if |name| <= MaxNameSize then name else name[..MaxNameSize])
  }

  /** Where the field holds a NUL, the bounded copy is exactly what kstrdup copies. */
  lemma DriverNameAgrees(name: Bytes, following: Bytes)
    requires |name| == MaxNameSize && 0 in name
    ensures DriverName(name) == KstrdupAsWritten(name, following)
  {
  }

  // ---------------------------------------------------------------------
  // Registration

  /** The results of the framework calls registration makes, and what they produce. */
  datatype Framework = Framework(
    convertErr: Err,       // drm_mode_convert_umode
    nameNoMem: bool,       // the name allocation fails
    devInitErr: Err,       // drm_dev_init
    connectorErr: Err,     // drm_connector_init
    pipeErr: Err,          // drm_simple_display_pipe_init
    registerErr: Err,      // drm_dev_register
    fbdevErr: Err,         // udrm_fbdev_init
    fbdevFb: Framebuffer,  // the framebuffer the fbdev helper creates
    primaryIndex: U32)     // the index of the primary DRM minor

  /** Registration gets as far as pipe init. */
  predicate PipeReached(fw: Framework)
  {
    fw.convertErr == 0 && !fw.nameNoMem && fw.devInitErr == 0
  }

  /** Pipe init succeeds. */
  predicate PipeOk(fw: Framework)
  {
    PipeReached(fw) && PipeInitRet(fw.connectorErr, fw.pipeErr) == 0
  }

  /** The framework calls registration makes, in order: one sequence per step that can fail, and success. */
  function RegisterCalls(fw: Framework): seq<FrameworkCall>
  {
    if fw.convertErr != 0 || fw.nameNoMem then []
    else if fw.devInitErr != 0 then [DevInit]
    else if fw.connectorErr != 0 then ConnectorFailedCalls
    else if fw.pipeErr != 0 then PipeFailedCalls
    else if fw.registerErr != 0 then RegisterFailedCalls
    else RegisteredCalls
  }

  const ConnectorFailedCalls: seq<FrameworkCall> := [DevInit, ModeConfigInit, ConnectorInit, ModeConfigCleanup]
  const PipeFailedCalls: seq<FrameworkCall> :=
    [DevInit, ModeConfigInit, ConnectorInit, SimplePipeInit, ConnectorCleanup, ModeConfigCleanup]
  const RegisterFailedCalls: seq<FrameworkCall> :=
    [DevInit, ModeConfigInit, ConnectorInit, SimplePipeInit, ModeConfigReset, DevRegister, ModeConfigCleanup]
  const RegisteredCalls: seq<FrameworkCall> :=
    [DevInit, ModeConfigInit, ConnectorInit, SimplePipeInit, ModeConfigReset, DevRegister, FbdevInit]

  /** The result of registration: the first failure among the steps it checks. */
  function RegisterRet(fw: Framework): Err
  {
    if fw.convertErr != 0 then fw.convertErr
    else if fw.nameNoMem then -ENOMEM
    else if fw.devInitErr != 0 then fw.devInitErr
    else if PipeInitRet(fw.connectorErr, fw.pipeErr) != 0 then PipeInitRet(fw.connectorErr, fw.pipeErr)
    else fw.registerErr
  }

  /** The device's mode after drm_mode_convert_umode: size, type and name come from the request. */
  function Converted(m: DisplayMode, u: ModeInfo): DisplayMode
  {
    m.(hdisplay := u.hdisplay, vdisplay := u.vdisplay, typeBits := u.typeBits, name := u.name)
  }

  /** udrm_drm_fini: the mode config is cleaned up. */
  method Fini(d: Device)
    modifies d`calls
    ensures d.calls == old(d.calls) + [ModeConfigCleanup]
  {
    d.calls := d.calls + [ModeConfigCleanup];
  }

  /**
   * udrm_drm_init: copy the driver name, initialise the DRM device, then
   * its mode config. A failed device initialisation is returned as it is.
   */
  method DrmInit(d: Device, name: Bytes, nameNoMem: bool, devInitErr: Err) returns (ret: Err)
    modifies d`driverName, d`calls
    ensures ret == if nameNoMem then -ENOMEM else devInitErr
    ensures d.driverName == if nameNoMem then old(d.driverName) else Some(DriverName(name))
    ensures d.calls == old(d.calls) + (if nameNoMem then [] else if devInitErr != 0 then [DevInit]
                                       else [DevInit, ModeConfigInit])
  {
    if nameNoMem {
      return -ENOMEM;
    }
    d.driverName := Some(DriverName(name));
    d.calls := d.calls + [DevInit];
    if devInitErr != 0 {
      return devInitErr;
    }
    d.calls := d.calls + [ModeConfigInit];
    ret := 0;
  }

  /**
   * The device state a registration leaves: the converted mode, the copied
   * name, the limits pinned to the mode (with depth 16 once the pipe
   * exists), the connector's status and, on success, the fbdev helper.
   */
  twostate predicate RegisteredState(d: Device, req: DevCreate, fw: Framework)
    reads d
  {
    && d.displayMode == (if fw.convertErr == 0 then Converted(old(d.displayMode), req.mode) else old(d.displayMode))
    && d.driverName == (if fw.convertErr == 0 && !fw.nameNoMem then Some(DriverName(req.name)) else old(d.driverName))
    && d.modeConfig == (if !PipeReached(fw) then old(d.modeConfig)
                        else Pinned(old(d.modeConfig), d.displayMode).(
                               preferredDepth := if PipeOk(fw) then 16 else old(d.modeConfig.preferredDepth)))
    && d.connectorConnected == (old(d.connectorConnected) || (PipeReached(fw) && fw.connectorErr == 0))
    && (if RegisterRet(fw) == 0 && fw.fbdevErr == 0 then d.hasFbdevHelper && d.fbdevFb == fw.fbdevFb
        else d.hasFbdevHelper == old(d.hasFbdevHelper) && d.fbdevFb == old(d.fbdevFb))
  }

  /**
   * udrm_drm_register: convert the mode, copy the name and initialise the
   * device, set up the pipe, reset and register, then set up fbdev, whose
   * failure is only logged. Failures after the mode config exists unwind
   * through udrm_drm_fini. `index` is the request's index field as it is
   * afterwards.
   */
  method Register(d: Device, req: DevCreate, fw: Framework) returns (ret: Err, index: U32)
    modifies d`displayMode, d`driverName, d`modeConfig, d`calls, d`connectorConnected
    modifies d`hasFbdevHelper, d`fbdevFb
    ensures ret == RegisterRet(fw)
    ensures d.calls == old(d.calls) + RegisterCalls(fw)
    ensures index == if ret == 0 then fw.primaryIndex else req.index
    ensures fw.convertErr != 0 ==> unchanged(d)
    ensures RegisteredState(d, req, fw)
  {
    index := req.index;
    if fw.convertErr != 0 {
      return fw.convertErr, index;
    }
    d.displayMode := Converted(d.displayMode, req.mode);
    ret := DrmInit(d, req.name, fw.nameNoMem, fw.devInitErr);
    if ret != 0 {
      return ret, index;
    }
    ret := PipeInit(d, fw.connectorErr, fw.pipeErr);
    if ret != 0 {
      Fini(d);
      return ret, index;
    }
    d.modeConfig := d.modeConfig.(preferredDepth := 16);
    d.calls := d.calls + [ModeConfigReset, DevRegister];
    if fw.registerErr != 0 {
      Fini(d);
      return fw.registerErr, index;
    }
    d.calls := d.calls + [FbdevInit];
    if fw.fbdevErr == 0 {
      d.hasFbdevHelper := true;
      d.fbdevFb := fw.fbdevFb;
    }
    index := fw.primaryIndex;
    ret := 0;
  }

  /** A failed mode conversion is reported before any framework call or allocation. */
  lemma RegisterConvertFirst(fw: Framework)
    requires fw.convertErr != 0
    ensures RegisterRet(fw) == fw.convertErr && RegisterCalls(fw) == []
  {
  }

  /** Registration succeeds exactly when every checked step does, and then makes the full sequence of calls. */
  lemma RegisterSucceedsIff(fw: Framework)
    ensures RegisterRet(fw) == 0 <==>
              PipeOk(fw) && fw.registerErr == 0
    ensures RegisterRet(fw) == 0 ==>
              RegisterCalls(fw) == RegisteredCalls
  {
  }

  /**
   * A failed fbdev set-up changes neither the result nor the framework calls
   * registration makes. This holds by construction: `RegisterRet` and
   * `RegisterCalls` do not read `fbdevErr`. The only trace of such a failure
   * is in `RegisteredState`, where no fbdev helper is recorded.
   */
  lemma RegisterFbdevIgnored(fw: Framework, fbdevErr: Err)
    ensures RegisterRet(fw.(fbdevErr := fbdevErr)) == RegisterRet(fw)
    ensures RegisterCalls(fw.(fbdevErr := fbdevErr)) == RegisterCalls(fw)
  {
  }

  /** The mode config is cleaned up as often as it was initialised, and the cleanup comes last. */
  predicate Unwound(calls: seq<FrameworkCall>)
  {
    && multiset(calls)[ModeConfigInit] == multiset(calls)[ModeConfigCleanup]
    && (ModeConfigInit in calls ==> calls[|calls| - 1] == ModeConfigCleanup)
  }

  lemma FailedCallsUnwound()
    ensures Unwound(ConnectorFailedCalls) && Unwound(PipeFailedCalls) && Unwound(RegisterFailedCalls)
  {
    assert multiset(ConnectorFailedCalls) == multiset{DevInit, ModeConfigInit, ConnectorInit, ModeConfigCleanup};
    assert multiset(PipeFailedCalls)
        == multiset{DevInit, ModeConfigInit, ConnectorInit, SimplePipeInit, ConnectorCleanup, ModeConfigCleanup};
    assert multiset(RegisterFailedCalls)
        == multiset{DevInit, ModeConfigInit, ConnectorInit, SimplePipeInit, ModeConfigReset, DevRegister, ModeConfigCleanup};
  }

  /**
   * A failed registration that got past the mode config's initialisation
   * cleaned it up again, and the last call it made is the cleanup.
   */
  lemma RegisterUnwinds(fw: Framework)
    requires RegisterRet(fw) != 0
    ensures Unwound(RegisterCalls(fw))
  {
    FailedCallsUnwound();
  }

  // ---------------------------------------------------------------------
  // Teardown

  /** The framework calls of udrm_drm_unregister, in order. */
  const UnregisterCalls: seq<FrameworkCall> :=
    [ForceDisableAll, CancelDirtyWork, FbdevFini, DevUnregister, ModeConfigCleanup]

  /**
   * udrm_drm_unregister: disable the outputs, cancel a pending flush, tear
   * fbdev down, unregister, then udrm_drm_fini.
   */
  method Unregister(d: Device)
    modifies d`calls, d`dirtyWorkPending, d`hasFbdevHelper, d`fbdevFb
    ensures d.calls == old(d.calls) + UnregisterCalls
    ensures !d.dirtyWorkPending && !d.hasFbdevHelper && d.fbdevFb == null
  {
    d.calls := d.calls + [ForceDisableAll, CancelDirtyWork];
    d.dirtyWorkPending := false;
    d.calls := d.calls + [FbdevFini];
    d.hasFbdevHelper := false;
    d.fbdevFb := null;
    d.calls := d.calls + [DevUnregister];
    Fini(d);
  }

  /** A successful registration makes each set-up call once and no teardown call. */
  lemma RegisteredCounts()
    ensures var m := multiset(RegisteredCalls);
            && m[ModeConfigInit] == m[DevRegister] == m[FbdevInit] == 1
            && m[ModeConfigCleanup] == m[DevUnregister] == m[FbdevFini] == 0
  {
  }

  /** Teardown makes each teardown call once and no set-up call. */
  lemma UnregisterCounts()
    ensures var m := multiset(UnregisterCalls);
            && m[ModeConfigInit] == m[DevRegister] == m[FbdevInit] == 0
            && m[ModeConfigCleanup] == m[DevUnregister] == m[FbdevFini] == 1
  {
  }

  /**
   * A successful registration followed by teardown initialises and cleans
   * up the mode config once each, and registers and unregisters once each.
   */
  lemma RegisterUnregisterBalanced(fw: Framework)
    requires RegisterRet(fw) == 0
    ensures var m := multiset(RegisterCalls(fw) + UnregisterCalls);
            && m[ModeConfigInit] == m[ModeConfigCleanup] == 1
            && m[DevRegister] == m[DevUnregister] == 1
            && m[FbdevInit] == m[FbdevFini] == 1
  {
    RegisterSucceedsIff(fw);
    assert multiset(RegisterCalls(fw) + UnregisterCalls) == multiset(RegisteredCalls) + multiset(UnregisterCalls);
    RegisteredCounts();
    UnregisterCounts();
  }

  /**
   * udrm_release_work: wait while DRM files are open, then unregister.
   * `openCounts` is the open count as the loop reads it, one entry per
   * check; when no check finds zero, the work is still waiting.
   */
  method ReleaseWork(d: Device, openCounts: seq<nat>) returns (sleeps: nat, finished: bool)
    modifies d`calls, d`dirtyWorkPending, d`hasFbdevHelper, d`fbdevFb, d`releaseWorkPending
    ensures finished <==> 0 in openCounts
    ensures finished ==> sleeps < |openCounts| && openCounts[sleeps] == 0 && 0 !in openCounts[..sleeps]
    ensures finished ==> d.calls == old(d.calls) + UnregisterCalls
                         && !d.dirtyWorkPending && !d.hasFbdevHelper && d.fbdevFb == null
                         && !d.releaseWorkPending
    ensures !finished ==> sleeps == |openCounts| && unchanged(d)
  {
    sleeps := 0;
    while sleeps < |openCounts| && openCounts[sleeps] != 0
      invariant sleeps <= |openCounts|
      invariant 0 !in openCounts[..sleeps]
    {
      sleeps := sleeps + 1;
    }
    if sleeps == |openCounts| {
      assert openCounts[..sleeps] == openCounts;
      return sleeps, false;
    }
    Unregister(d);
    d.releaseWorkPending := false;
    finished := true;
  }

  /** udrm_release: closing the device file schedules teardown only for a registered device. */
  method Release(d: Device) returns (ret: int)
    modifies d`releaseWorkPending
    ensures ret == 0
    ensures d.releaseWorkPending == (old(d.releaseWorkPending) || d.initialized)
  {
    if d.initialized {
      d.releaseWorkPending := true;
    }
    ret := 0;
  }

  // ---------------------------------------------------------------------
  // The create ioctl

  /**
   * udrm_ioctl: only UDRM_DEV_CREATE is known. The device is marked
   * initialised (opening the mailbox to replies) as soon as registration
   * succeeds, even if copying the request back then fails. `reply` is what
   * is copied back.
   */
  method Ioctl(d: Device, cmd: U32, copyInFault: bool, req: DevCreate, fw: Framework, copyOutFault: bool)
    returns (ret: int, reply: Option<DevCreate>)
    modifies d`displayMode, d`driverName, d`modeConfig, d`calls, d`connectorConnected
    modifies d`hasFbdevHelper, d`fbdevFb, d`initialized
    ensures cmd != DevCreateCmd ==> ret == -EINVAL && reply == None && unchanged(d)
    ensures cmd == DevCreateCmd && copyInFault ==> ret == -EFAULT && reply == None && unchanged(d)
    ensures cmd == DevCreateCmd && !copyInFault ==>
              && d.calls == old(d.calls) + RegisterCalls(fw)
              && d.initialized == (old(d.initialized) || RegisterRet(fw) == 0)
              && RegisteredState(d, req, fw)
              && ret == (if RegisterRet(fw) != 0 then RegisterRet(fw) else if copyOutFault then -EFAULT else 0)
              && reply == (if RegisterRet(fw) == 0 && !copyOutFault then Some(req.(index := fw.primaryIndex)) else None)
  {
    reply := None;
    if cmd != DevCreateCmd {
      return -EINVAL, reply;
    }
    if copyInFault {
      return -EFAULT, reply;
    }
    var index;
    ret, index := Register(d, req, fw);
    if ret == 0 {
      d.initialized := true;
      if copyOutFault {
        ret := -EFAULT;
      } else {
        reply := Some(req.(index := index));
      }
    }
  }

  /**
   * The mailbox accepts replies only after a create ioctl whose registration
   * succeeded; before that even an empty write is refused.
   */
  lemma ReplyNeedsRegistration(c: Channel, count: nat, value: I32, fault: bool, lockIntr: bool)
    requires !c.initialized
    ensures WriteSpec(c, count, value, fault, lockIntr) == Step(c, -EINVAL)
  {
  }

  // ---------------------------------------------------------------------
  // Last close and the deferred flush

  /** udrm_lastclose: fbdev gets its mode back if it was ever shown, otherwise all outputs are switched off. */
  method LastClose(d: Device)
    modifies d`calls
    ensures d.calls == old(d.calls) + [if d.fbdevUsed then FbdevRestoreMode else ForceDisableAll]
  {
    if d.fbdevUsed {
      d.calls := d.calls + [FbdevRestoreMode];
    } else {
      d.calls := d.calls + [ForceDisableAll];
    }
  }

  /**
   * udrm_dirty_work: a full-frame flush of the plane's framebuffer, if any.
   * The vblank event delivery that follows is not part of this model.
   */
  method DirtyWork(d: Device, env: DirtyEnv) returns (ret: int, ghost mid: Channel)
    requires d.hasFbdevHelper ==> d.fbdevFb != null
    modifies d`dirtyWorkPending, d`enabled, d`fbdevFbSent, d`idr, d`ev, d`eventRet, d`done
    ensures !d.dirtyWorkPending
    ensures old(d.planeFb) == null ==> ret == 0
    ensures old(d.planeFb) != null && !old(d.prepared) ==> ret == -EINVAL
    ensures old(d.planeFb) == null || !old(d.prepared) ==>
              && d.enabled == old(d.enabled) && d.idr == old(d.idr) && d.fbdevFbSent == old(d.fbdevFbSent)
              && ChannelOf(d) == old(ChannelOf(d))
    ensures old(d.planeFb) != null && old(d.prepared) ==>
              && d.enabled
              && (if old(d.hasFbdevHelper && !d.fbdevFbSent) then
                    var s := CreateSpec(old(d.idr), old(ChannelOf(d)), old(d.fbdevFb), env.fbdev);
                    d.fbdevFbSent && d.idr == s.idr && mid == s.step.ch
                  else
                    d.fbdevFbSent == old(d.fbdevFbSent) && d.idr == old(d.idr) && mid == old(ChannelOf(d)))
              && (env.allocFails ==> ret == -ENOMEM && ChannelOf(d) == mid)
              && (!env.allocFails ==>
                    Step(ChannelOf(d), ret) == SendSpec(mid, DirtyEvent(old(d.planeFb), 0, 0, None), env.send))
  {
    d.dirtyWorkPending := false;
    mid := ChannelOf(d);
    ret := 0;
    var fb := d.planeFb;
    if fb != null {
      ret, mid := Dirty(d, fb, 0, 0, None, env);
    }
  }

  /** A deferred flush sends the whole frame. */
  lemma DirtyWorkFlushesFullFrame(fb: Framebuffer)
    ensures DirtyEvent(fb, 0, 0, None) == FbDirty(DirtyCmd(fb.id, 0, 0), [FullFrame(fb.width, fb.height)])
  {
    MergeAbsentIsFullFrame(None, 0, fb.width, fb.height);
  }

  // ---------------------------------------------------------------------
  // PRIME export

  /** DRM_CLOEXEC (O_CLOEXEC) and DRM_RDWR (O_RDWR). */
  const DrmCloexec: bv32 := 0x8_0000
  const DrmRdwr: bv32 := 0x2

  /**
   * udrm_prime_handle_to_fd_ioctl: any flag other than DRM_CLOEXEC and
   * DRM_RDWR is refused; otherwise the result is the framework's export's.
   */
  function PrimeHandleToFd(flags: bv32, exportRet: int): (r: int)
    ensures flags & !(DrmCloexec | DrmRdwr) != 0 ==> r == -EINVAL
    ensures flags & !(DrmCloexec | DrmRdwr) == 0 ==> r == exportRet
  {
    if flags & !(DrmCloexec | DrmRdwr) != 0 then -EINVAL else exportRet
  }

  /** Exactly the four combinations of the two flags reach the export. */
  lemma PrimeFlagsAccepted(flags: bv32, exportRet: int)
    requires exportRet != -EINVAL
    ensures PrimeHandleToFd(flags, exportRet) != -EINVAL <==>
              flags == 0 || flags == DrmRdwr || flags == DrmCloexec || flags == DrmCloexec | DrmRdwr
  {
  }
}
