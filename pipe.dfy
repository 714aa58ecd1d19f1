/**
 * The display pipe callbacks and connector of udrm-pipe.c: the
 * prepared/enabled flags, the scanned-out framebuffer, the single
 * probed mode and the size limits pinned to it.
 */
module Pipe {
  import opened Uapi
  import opened Errno
  import opened Udrm
  import opened Dev

  /** DRM_MODE_TYPE_PREFERRED, bit 3 of a mode's type. */
  const ModeTypePreferred: U32 := 8

  /** udrm_display_pipe_enable: the pipe is prepared and the consumer told so. */
  method Enable(d: Device, env: SendEnv)
    modifies d`prepared, d`ev, d`eventRet, d`done
    ensures d.prepared
    ensures ChannelOf(d) == SendSpec(old(ChannelOf(d)), PipeEnable, env).ch
  {
    d.prepared := true;
    var r := SendEvent(d, PipeEnable, env);
  }

  /** udrm_display_pipe_disable: both flags drop, so the next flush after re-enabling is a full one. */
  method Disable(d: Device, env: SendEnv)
    modifies d`prepared, d`enabled, d`ev, d`eventRet, d`done
    ensures !d.prepared && !d.enabled
    ensures ChannelOf(d) == SendSpec(old(ChannelOf(d)), PipeDisable, env).ch
  {
    d.prepared := false;
    d.enabled := false;
    var r := SendEvent(d, PipeDisable, env);
  }

  /** The pipe events are bare headers with their own type codes. */
  lemma PipeEventsShape()
    ensures TypeCode(PipeEnable) == EventPipeEnable && Length(PipeEnable) == HeaderSize
    ensures TypeCode(PipeDisable) == EventPipeDisable && Length(PipeDisable) == HeaderSize
    ensures Encode(PipeEnable) != Encode(PipeDisable)
  {
    EncodedHeader(PipeEnable);
    EncodedHeader(PipeDisable);
    assert Encode(PipeEnable)[..HeaderSize] != Encode(PipeDisable)[..HeaderSize];
  }

  /**
   * udrm_display_pipe_update: a new, different framebuffer becomes the
   * plane's and a flush is scheduled; showing the fbdev framebuffer marks
   * fbdev as used. The vblank event delivery is not part of this model.
   */
  method Update(d: Device, fb: Framebuffer?, oldFb: Framebuffer?)
    modifies d`planeFb, d`dirtyWorkPending, d`fbdevUsed
    ensures fb != null && fb != oldFb ==> d.planeFb == fb && d.dirtyWorkPending
    ensures !(fb != null && fb != oldFb) ==>
              d.planeFb == old(d.planeFb) && d.dirtyWorkPending == old(d.dirtyWorkPending)
    ensures d.fbdevUsed == (old(d.fbdevUsed) || (d.hasFbdevHelper && fb == d.fbdevFb))
  {
    if fb != null && fb != oldFb {
      d.planeFb := fb;
      d.dirtyWorkPending := true;
    }
    if d.hasFbdevHelper && fb == d.fbdevFb {
      d.fbdevUsed := true;
    }
  }

  /** The type bits with DRM_MODE_TYPE_PREFERRED set and every other bit kept. */
  function WithPreferred(t: U32): (r: U32)
    ensures (r / ModeTypePreferred) % 2 == 1
    ensures r % ModeTypePreferred == t % ModeTypePreferred
    ensures r / (2 * ModeTypePreferred) == t / (2 * ModeTypePreferred)
  {
    if (t / ModeTypePreferred) % 2 == 1 then t else t + ModeTypePreferred
  }

  /** Whether a mode's name is empty (its first byte is NUL). */
  predicate Unnamed(name: Bytes)
  {
    name == [] || name[0] == 0
  }

  /**
   * The copy of the device's mode that is offered to the framework: named
   * (with the framework's generated name when it had none) and marked preferred.
   */
  function ProbedMode(m: DisplayMode, generatedName: Bytes): DisplayMode
  {
    m.(name := if Unnamed(m.name) then generatedName else m.name, typeBits := WithPreferred(m.typeBits))
  }

  /**
   * udrm_connector_get_modes: the device's one mode is offered, so the
   * count is 1, unless duplicating it fails and none is. A physical size is
   * copied to the connector only when the mode has one.
   */
  method GetModes(d: Device, dupFails: bool, generatedName: Bytes) returns (count: nat)
    modifies d`probedModes, d`widthMm, d`heightMm
    ensures dupFails ==> count == 0 && unchanged(d)
    ensures !dupFails ==> count == 1 && d.probedModes == old(d.probedModes) + [ProbedMode(d.displayMode, generatedName)]
    ensures !dupFails && d.displayMode.widthMm != 0 ==>
              d.widthMm == d.displayMode.widthMm && d.heightMm == d.displayMode.heightMm
    ensures d.displayMode.widthMm == 0 ==> d.widthMm == old(d.widthMm) && d.heightMm == old(d.heightMm)
  {
    if dupFails {
      return 0;
    }
    var mode := d.displayMode;
    if Unnamed(mode.name) {
      mode := mode.(name := generatedName);
    }
    mode := mode.(typeBits := WithPreferred(mode.typeBits));
    d.probedModes := d.probedModes + [mode];
    if mode.widthMm != 0 {
      d.widthMm := mode.widthMm;
      d.heightMm := mode.heightMm;
    }
    count := 1;
  }

  /** The offered mode has the device's size and is preferred; a name it had is kept. */
  lemma ProbedModeKeepsMode(m: DisplayMode, generatedName: Bytes)
    ensures var p := ProbedMode(m, generatedName);
            && p.hdisplay == m.hdisplay && p.vdisplay == m.vdisplay
            && p.widthMm == m.widthMm && p.heightMm == m.heightMm
            && (p.typeBits / ModeTypePreferred) % 2 == 1
            && (!Unnamed(m.name) ==> p.name == m.name)
            && (!Unnamed(generatedName) ==> !Unnamed(p.name))
  {
  }

  /** The mode config's limits pinned to the device's one mode. */
  function Pinned(cfg: ModeConfig, m: DisplayMode): ModeConfig
  {
    cfg.(minWidth := m.hdisplay, maxWidth := m.hdisplay, minHeight := m.vdisplay, maxHeight := m.vdisplay)
  }

  predicate FitsConfig(cfg: ModeConfig, width: int, height: int)
  {
    cfg.minWidth <= width <= cfg.maxWidth && cfg.minHeight <= height <= cfg.maxHeight
  }

  /** After pinning, the only size within the limits is the mode's own. */
  lemma PinnedAdmitsOnlyModeSize(cfg: ModeConfig, m: DisplayMode, width: int, height: int)
    ensures FitsConfig(Pinned(cfg, m), width, height) <==> width == m.hdisplay && height == m.vdisplay
  {
  }

  /** The framework calls pipe init makes, given the results of connector and pipe init. */
  function PipeInitCalls(connectorErr: Err, pipeErr: Err): seq<FrameworkCall>
  {
    [ConnectorInit] + if connectorErr != 0 then [] else [SimplePipeInit] + if pipeErr != 0 then [ConnectorCleanup] else []
  }

  function PipeInitRet(connectorErr: Err, pipeErr: Err): Err
  {
    if connectorErr != 0 then connectorErr else pipeErr
  }

  /**
   * udrm_display_pipe_init: the size limits are pinned to the mode, then the
   * connector and the pipe are set up; a pipe failure cleans the connector up.
   */
  method PipeInit(d: Device, connectorErr: Err, pipeErr: Err) returns (ret: Err)
    modifies d`modeConfig, d`calls, d`connectorConnected
    ensures d.modeConfig == Pinned(old(d.modeConfig), d.displayMode)
    ensures ret == PipeInitRet(connectorErr, pipeErr)
    ensures d.calls == old(d.calls) + PipeInitCalls(connectorErr, pipeErr)
    ensures d.connectorConnected == (old(d.connectorConnected) || connectorErr == 0)
  {
    var m := d.displayMode;
    d.modeConfig := d.modeConfig.(minWidth := m.hdisplay, maxWidth := m.hdisplay);
    d.modeConfig := d.modeConfig.(minHeight := m.vdisplay, maxHeight := m.vdisplay);
    d.calls := d.calls + [ConnectorInit];
    if connectorErr != 0 {
      return connectorErr;
    }
    d.connectorConnected := true;
    d.calls := d.calls + [SimplePipeInit];
    ret := pipeErr;
    if ret != 0 {
      d.calls := d.calls + [ConnectorCleanup];
    }
  }

  /**
   * Whatever the outcome, pipe init never leaves a connector initialised
   * behind a failure: a failed call is the last one, or is followed by the cleanup.
   */
  lemma PipeInitUnwinds(connectorErr: Err, pipeErr: Err)
    ensures var calls := PipeInitCalls(connectorErr, pipeErr);
            && (PipeInitRet(connectorErr, pipeErr) == 0 <==> calls == [ConnectorInit, SimplePipeInit])
            && (connectorErr == 0 && pipeErr != 0 ==> calls[|calls| - 1] == ConnectorCleanup)
            && (connectorErr != 0 ==> calls == [ConnectorInit])
  {
  }
}
