/**
 * The driver's per-device record (struct udrm_device in udrm.h) and the
 * framebuffer objects it refers to. The DRM framework objects the record
 * embeds are reduced to the fields the driver reads or writes; calls into
 * the framework are recorded, in order, in the ghost trace `calls`.
 */
module Udrm {
  import opened Uapi

  /**
   * A framebuffer handed to the driver by the framework. Its fields never
   * change after creation, and the driver compares framebuffers by identity.
   * `planes` holds the layouts of the leading planes that are backed by a
   * buffer object (at most four).
   */
  class Framebuffer {
    const id: U32
    const width: U32
    const height: U32
    const pixelFormat: U32
    const flags: U32
    const planes: seq<PlaneLayout>

    constructor (id: U32, width: U32, height: U32, pixelFormat: U32, flags: U32, planes: seq<PlaneLayout>)
      requires |planes| <= MaxPlanes
      ensures this.id == id && this.width == width && this.height == height
      ensures this.pixelFormat == pixelFormat && this.flags == flags && this.planes == planes
    {
      this.id := id;
      this.width := width;
      this.height := height;
      this.pixelFormat := pixelFormat;
      this.flags := flags;
      this.planes := planes;
    }
  }

  /** The parts of drm_display_mode the driver touches. */
  datatype DisplayMode = DisplayMode(hdisplay: U16, vdisplay: U16, typeBits: U32, name: Bytes,
                                     widthMm: U32, heightMm: U32)

  const ZeroMode := DisplayMode(0, 0, 0, [], 0, 0)

  /** The size limits and preferred depth of drm_mode_config. */
  datatype ModeConfig = ModeConfig(minWidth: int, maxWidth: int, minHeight: int, maxHeight: int,
                                   preferredDepth: int)

  const ZeroConfig := ModeConfig(0, 0, 0, 0, 0)

  /** Calls the driver makes into the DRM framework, in the order it makes them. */
  datatype FrameworkCall =
    | DevInit
    | ModeConfigInit
    | ConnectorInit
    | SimplePipeInit
    | ConnectorCleanup
    | ModeConfigReset
    | DevRegister
    | FbdevInit
    | ForceDisableAll
    | CancelDirtyWork
    | FbdevFini
    | DevUnregister
    | ModeConfigCleanup
    | FbdevRestoreMode
    | FbCmaDestroy(fbId: U32)

  /** struct udrm_device. */
  class Device {
    // Pipe state.
    var prepared: bool
    var enabled: bool
    /** pipe.plane.fb: the framebuffer last scanned out. */
    var planeFb: Framebuffer?
    var dirtyWorkPending: bool

    // fbdev emulation: whether a helper exists, and the helper's framebuffer.
    var hasFbdevHelper: bool
    var fbdevFb: Framebuffer?
    var fbdevUsed: bool
    var fbdevFbSent: bool

    /** The idr table from framebuffer id to framebuffer. */
    var idr: map<U32, Framebuffer>

    // Event mailbox.
    /** The single pending event, or None. */
    var ev: Option<Event>
    /** The last reply code written by the consumer. */
    var eventRet: int
    /** The completion's count of unconsumed completions. */
    var done: nat

    var initialized: bool
    var releaseWorkPending: bool

    // Display description and framework state set up at registration.
    var displayMode: DisplayMode
    var modeConfig: ModeConfig
    var probedModes: seq<DisplayMode>
    var widthMm: U32
    var heightMm: U32
    var connectorConnected: bool
    var driverName: Option<Bytes>

    ghost var calls: seq<FrameworkCall>

    /** Every field as the zero-filled allocation leaves it. */
    ghost predicate Zeroed()
      reads this
    {
      && !prepared && !enabled && planeFb == null && !dirtyWorkPending
      && !hasFbdevHelper && fbdevFb == null && !fbdevUsed && !fbdevFbSent
      && idr == map[] && ev == None && eventRet == 0 && done == 0
      && !initialized && !releaseWorkPending
      && displayMode == ZeroMode && modeConfig == ZeroConfig && probedModes == []
      && widthMm == 0 && heightMm == 0 && !connectorConnected && driverName == None
      && calls == []
    }

    /** A fresh zero-filled record with an empty table, mailbox and completion. */
    constructor ()
      ensures Zeroed()
    {
      prepared, enabled, planeFb, dirtyWorkPending := false, false, null, false;
      hasFbdevHelper, fbdevFb, fbdevUsed, fbdevFbSent := false, null, false, false;
      idr, ev, eventRet, done := map[], None, 0, 0;
      initialized, releaseWorkPending := false, false;
      displayMode, modeConfig, probedModes := ZeroMode, ZeroConfig, [];
      widthMm, heightMm, connectorConnected, driverName := 0, 0, false, None;
      calls := [];
    }
  }
}
