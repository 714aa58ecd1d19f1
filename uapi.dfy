/**
 * The userspace ABI of the udrm device: the event records a consumer reads
 * from the character device, the clip rectangle they carry, the buffer-mode
 * constants and the device-create request.
 *
 * Multi-byte fields are laid out little-endian, as on the host the consumer
 * shares with the kernel. The sizes of the embedded DRM records
 * (drm_mode_fb_cmd2, drm_mode_fb_dirty_cmd, drm_clip_rect) are those of the
 * DRM uapi header, which is not part of this model.
 */
module Uapi {

  type U8 = x: int | 0 <= x < 0x100
  type U16 = x: int | 0 <= x < 0x1_0000
  type U32 = x: int | 0 <= x < 0x1_0000_0000
  type U64 = x: int | 0 <= x < 0x1_0000_0000_0000_0000
  type I32 = x: int | -0x8000_0000 <= x < 0x8000_0000

  type Bytes = seq<U8>

  datatype Option<T> = None | Some(value: T)

  /** Length of the name field of the create request (UDRM_MAX_NAME_SIZE). */
  const MaxNameSize: nat := 80

  // Event type codes (UDRM_EVENT_*).
  const EventPipeEnable: U32 := 1
  const EventPipeDisable: U32 := 2
  const EventFbCreate: U32 := 3
  const EventFbDestroy: U32 := 4
  const EventFbDirty: U32 := 5

  // Record sizes in bytes.
  /** struct udrm_event: u32 type, u32 length. */
  const HeaderSize: nat := 8
  /** struct drm_mode_fb_cmd2: five u32, three u32[4], padding to 8, u64[4]. */
  const FbCmdSize: nat := 104
  /** struct drm_mode_fb_dirty_cmd: four u32 and the u64 clips pointer. */
  const DirtyCmdSize: nat := 24
  /** struct drm_clip_rect: four u16. */
  const ClipSize: nat := 8
  /** Number of plane slots in drm_mode_fb_cmd2. */
  const MaxPlanes: nat := 4

  // Buffer modes (UDRM_BUF_MODE_*): a base mode in the low bits, and a
  // separate emulation bit that can be OR-ed with any of them.
  const BufModeNone: U32 := 0
  const BufModePlainCopy: U32 := 1
  const BufModeSwapBytes: U32 := 2
  /** BIT(8) */
  const BufModeEmulXrgb8888: U32 := 0x100

  /** A half-open update rectangle (struct drm_clip_rect); bounds are unsigned 16-bit. */
  datatype ClipRect = ClipRect(x1: U16, y1: U16, x2: U16, y2: U16)

  /** The fields of drm_mode_fb_dirty_cmd the driver fills; num_clips is the length of the clip list. */
  datatype DirtyCmd = DirtyCmd(fbId: U32, flags: U32, color: U32)

  /** One plane slot of drm_mode_fb_cmd2. */
  datatype PlaneLayout = PlaneLayout(pitch: U32, offset: U32, modifier: U64)

  /** The fields of drm_mode_fb_cmd2 the driver fills; the handles stay zero. */
  datatype FbCmd = FbCmd(fbId: U32, width: U32, height: U32, pixelFormat: U32, flags: U32,
                         planes: seq<PlaneLayout>)

  /** The events the driver posts to the consumer. */
  datatype Event =
    | PipeEnable
    | PipeDisable
    | FbCreate(fb: FbCmd)
    | FbDestroy(fbId: U32)
    | FbDirty(cmd: DirtyCmd, clips: seq<ClipRect>)

  function TypeCode(e: Event): U32
  {
    match e
    case PipeEnable => EventPipeEnable
    case PipeDisable => EventPipeDisable
    case FbCreate(_) => EventFbCreate
    case FbDestroy(_) => EventFbDestroy
    case FbDirty(_, _) => EventFbDirty
  }

  /** The byte length a record of this event declares in its header and occupies. */
  function Length(e: Event): nat
  {
    match e
    case PipeEnable => HeaderSize
    case PipeDisable => HeaderSize
    case FbCreate(_) => HeaderSize + FbCmdSize
    case FbDestroy(_) => HeaderSize + 4
    case FbDirty(_, clips) => HeaderSize + DirtyCmdSize + ClipSize * |clips|
  }

  /** An event that has a wire form: four plane slots, and a length that fits the u32 length field. */
  predicate WellFormed(e: Event)
  {
    match e
    case FbCreate(f) => |f.planes| == MaxPlanes
    case FbDirty(_, _) => Length(e) < 0x1_0000_0000
    case _ => true
  }

  lemma TypeCodesDistinct(e1: Event, e2: Event)
    ensures TypeCode(e1) == TypeCode(e2) <==>
              (e1.PipeEnable? == e2.PipeEnable? && e1.PipeDisable? == e2.PipeDisable? &&
               e1.FbCreate? == e2.FbCreate? && e1.FbDestroy? == e2.FbDestroy? && e1.FbDirty? == e2.FbDirty?)
  {
  }

  // ---------------------------------------------------------------------
  // Little-endian fields

  function Pow256(n: nat): (p: nat)
    ensures p >= 1
  {
    if n == 0 then 1 else 256 * Pow256(n - 1)
  }

  lemma Pow256Widths()
    ensures Pow256(2) == 0x1_0000
    ensures Pow256(4) == 0x1_0000_0000
    ensures Pow256(8) == 0x1_0000_0000_0000_0000
  {
    assert Pow256(1) == 0x100;
    assert Pow256(2) == 0x1_0000;
    assert Pow256(3) == 0x100_0000;
    assert Pow256(4) == 0x1_0000_0000;
    assert Pow256(5) == 0x100_0000_0000;
    assert Pow256(6) == 0x1_0000_0000_0000;
    assert Pow256(7) == 0x100_0000_0000_0000;
  }

  /** x as a w-byte little-endian field (higher bits beyond w bytes are dropped). */
  function LittleEndian(x: nat, w: nat): (b: Bytes)
    ensures |b| == w
  {
    if w == 0 then [] else [x % 256] + LittleEndian(x / 256, w - 1)
  }

  /** The value of a little-endian field. */
  function FromLittleEndian(b: Bytes): (x: nat)
    ensures x < Pow256(|b|)
  {
    if b == [] then 0 else b[0] + 256 * FromLittleEndian(b[1..])
  }

  lemma {:induction false} LittleEndianRoundTrip(x: nat, w: nat)
    requires x < Pow256(w)
    ensures FromLittleEndian(LittleEndian(x, w)) == x
  {
    if w > 0 {
      LittleEndianRoundTrip(x / 256, w - 1);
      var b := LittleEndian(x, w);
      assert b[1..] == LittleEndian(x / 256, w - 1);
    }
  }

  /** Every value fits a w-byte field. */
  predicate Fits(xs: seq<nat>, w: nat)
  {
    forall i :: 0 <= i < |xs| ==> xs[i] < Pow256(w)
  }

  /** A run of w-byte little-endian fields. */
  function Words(xs: seq<nat>, w: nat): (b: Bytes)
    ensures |b| == w * |xs|
  {
    if xs == [] then [] else LittleEndian(xs[0], w) + Words(xs[1..], w)
  }

  /** Splits bytes into w-byte little-endian fields (a trailing partial field is ignored). */
  function Unwords(b: Bytes, w: nat): (xs: seq<nat>)
    requires w > 0
    ensures Fits(xs, w)
    decreases |b|
  {
    if |b| < w then [] else [FromLittleEndian(b[..w])] + Unwords(b[w..], w)
  }

  lemma {:induction false} UnwordsWords(xs: seq<nat>, w: nat)
    requires w > 0 && Fits(xs, w)
    ensures Unwords(Words(xs, w), w) == xs
  {
    if xs != [] {
      var b := Words(xs, w);
      assert b[..w] == LittleEndian(xs[0], w);
      assert b[w..] == Words(xs[1..], w);
      LittleEndianRoundTrip(xs[0], w);
      UnwordsWords(xs[1..], w);
    }
  }

  // ---------------------------------------------------------------------
  // Event records

  function ClipWords(c: ClipRect): seq<nat>
  {
    [c.x1, c.y1, c.x2, c.y2]
  }

  /** The trailing clip array of a dirty event. */
  function ClipBytes(clips: seq<ClipRect>): (b: Bytes)
    ensures |b| == ClipSize * |clips|
  {
    if clips == [] then [] else Words(ClipWords(clips[0]), 2) + ClipBytes(clips[1..])
  }

  function DecodeClips(b: Bytes): seq<ClipRect>
    decreases |b|
  {
    if |b| < ClipSize then []
    else
      var ws := Unwords(b[..ClipSize], 2);
      Pow256Widths();
      if |ws| != 4 then [] else
      [ClipRect(ws[0], ws[1], ws[2], ws[3])] + DecodeClips(b[ClipSize..])
  }

  function PlaneWords(planes: seq<PlaneLayout>): seq<U32>
    requires |planes| == MaxPlanes
  {
    [planes[0].pitch, planes[1].pitch, planes[2].pitch, planes[3].pitch,
     planes[0].offset, planes[1].offset, planes[2].offset, planes[3].offset]
  }

  function ModifierWords(planes: seq<PlaneLayout>): seq<U64>
    requires |planes| == MaxPlanes
  {
    [planes[0].modifier, planes[1].modifier, planes[2].modifier, planes[3].modifier]
  }

  /** The 32-bit part of drm_mode_fb_cmd2: ids and sizes, four zero handles, pitches, offsets, padding. */
  function FbCmdWords(f: FbCmd): seq<U32>
    requires |f.planes| == MaxPlanes
  {
    [f.fbId, f.width, f.height, f.pixelFormat, f.flags, 0, 0, 0, 0] + PlaneWords(f.planes) + [0]
  }

  function FbCmdBytes(f: FbCmd): (b: Bytes)
    requires |f.planes| == MaxPlanes
    ensures |b| == FbCmdSize
  {
    Words(FbCmdWords(f), 4) + Words(ModifierWords(f.planes), 8)
  }

  function DecodeFbCmd(b: Bytes): Option<FbCmd>
    requires |b| == FbCmdSize
  {
    var ws := Unwords(b[..72], 4);
    var ms := Unwords(b[72..], 8);
    Pow256Widths();
    if |ws| != 18 || |ms| != 4 then None else
    Some(FbCmd(ws[0], ws[1], ws[2], ws[3], ws[4],
          [PlaneLayout(ws[9], ws[13], ms[0]), PlaneLayout(ws[10], ws[14], ms[1]),
           PlaneLayout(ws[11], ws[15], ms[2]), PlaneLayout(ws[12], ws[16], ms[3])]))
  }

  function Payload(e: Event): (b: Bytes)
    requires WellFormed(e)
    ensures HeaderSize + |b| == Length(e)
  {
    match e
    case PipeEnable => []
    case PipeDisable => []
    case FbCreate(f) => FbCmdBytes(f)
    case FbDestroy(id) => Words([id], 4)
    case FbDirty(cmd, clips) =>
      Words([cmd.fbId, cmd.flags, cmd.color, |clips|], 4) + Words([0], 8) + ClipBytes(clips)
  }

  /** The record the consumer reads: the header (type, length) followed by the payload. */
  function Encode(e: Event): (b: Bytes)
    requires WellFormed(e)
    ensures |b| == Length(e)
  {
    Words([TypeCode(e), Length(e)], 4) + Payload(e)
  }

  /** How a consumer frames and parses one record; None for anything Encode cannot produce. */
  function Decode(b: Bytes): Option<Event>
  {
    if |b| < HeaderSize then None
    else
      var hdr := Unwords(b[..HeaderSize], 4);
      var p := b[HeaderSize..];
      if |hdr| != 2 || hdr[1] != |b| then None
      else if hdr[0] == EventPipeEnable && p == [] then Some(PipeEnable)
      else if hdr[0] == EventPipeDisable && p == [] then Some(PipeDisable)
      else if hdr[0] == EventFbCreate && |p| == FbCmdSize then
        var f := DecodeFbCmd(p);
        if f.None? then None else Some(FbCreate(f.value))
      else if hdr[0] == EventFbDestroy && |p| == 4 then
        var id := Unwords(p, 4);
        Pow256Widths();
        if |id| != 1 then None else Some(FbDestroy(id[0]))
      else if hdr[0] == EventFbDirty && |p| >= DirtyCmdSize && (|p| - DirtyCmdSize) % ClipSize == 0 then
        var c := Unwords(p[..16], 4);
        Pow256Widths();
        if |c| != 4 || c[3] != (|p| - DirtyCmdSize) / ClipSize then None
        else Some(FbDirty(DirtyCmd(c[0], c[1], c[2]), DecodeClips(p[DirtyCmdSize..])))
      else None
  }

  // ---------------------------------------------------------------------
  // Round trips

  lemma {:induction false} DecodeClipsRoundTrip(clips: seq<ClipRect>)
    ensures DecodeClips(ClipBytes(clips)) == clips
  {
    if clips != [] {
      var b := ClipBytes(clips);
      Pow256Widths();
      assert Fits(ClipWords(clips[0]), 2);
      assert b[..ClipSize] == Words(ClipWords(clips[0]), 2);
      assert b[ClipSize..] == ClipBytes(clips[1..]);
      UnwordsWords(ClipWords(clips[0]), 2);
      DecodeClipsRoundTrip(clips[1..]);
    }
  }

  lemma U32sFit(xs: seq<U32>)
    ensures Fits(xs, 4)
  {
    Pow256Widths();
  }

  lemma U64sFit(xs: seq<U64>)
    ensures Fits(xs, 8)
  {
    Pow256Widths();
  }

  lemma FbCmdWordsRoundTrip(f: FbCmd)
    requires |f.planes| == MaxPlanes
    ensures Unwords(FbCmdBytes(f)[..72], 4) == FbCmdWords(f)
  {
    assert FbCmdBytes(f)[..72] == Words(FbCmdWords(f), 4);
    U32sFit(FbCmdWords(f));
    UnwordsWords(FbCmdWords(f), 4);
  }

  lemma ModifierWordsRoundTrip(f: FbCmd)
    requires |f.planes| == MaxPlanes
    ensures Unwords(FbCmdBytes(f)[72..], 8) == ModifierWords(f.planes)
  {
    assert FbCmdBytes(f)[72..] == Words(ModifierWords(f.planes), 8);
    U64sFit(ModifierWords(f.planes));
    UnwordsWords(ModifierWords(f.planes), 8);
  }

  lemma DecodeFbCmdRoundTrip(f: FbCmd)
    requires |f.planes| == MaxPlanes
    ensures DecodeFbCmd(FbCmdBytes(f)) == Some(f)
  {
    FbCmdWordsRoundTrip(f);
    ModifierWordsRoundTrip(f);
    var ws := FbCmdWords(f);
    var ms := ModifierWords(f.planes);
    var p := f.planes;
    assert p == [PlaneLayout(ws[9], ws[13], ms[0]), PlaneLayout(ws[10], ws[14], ms[1]),
                 PlaneLayout(ws[11], ws[15], ms[2]), PlaneLayout(ws[12], ws[16], ms[3])];
  }

  /** Every record starts with its u32 type code and its u32 byte length, which is the record's size. */
  lemma EncodedHeader(e: Event)
    requires WellFormed(e)
    ensures |Encode(e)| == Length(e) >= HeaderSize
    ensures Unwords(Encode(e)[..HeaderSize], 4) == [TypeCode(e), Length(e)]
  {
    Pow256Widths();
    assert Encode(e)[..HeaderSize] == Words([TypeCode(e), Length(e)], 4);
    UnwordsWords([TypeCode(e), Length(e)], 4);
  }

  lemma DecodeEncodeFbCreate(f: FbCmd)
    requires WellFormed(FbCreate(f))
    ensures Decode(Encode(FbCreate(f))) == Some(FbCreate(f))
  {
    var e := FbCreate(f);
    Pow256Widths();
    EncodedHeader(e);
    assert Encode(e)[HeaderSize..] == Payload(e);
    DecodeFbCmdRoundTrip(f);
  }

  lemma DecodeEncodeFbDestroy(id: U32)
    ensures Decode(Encode(FbDestroy(id))) == Some(FbDestroy(id))
  {
    var e := FbDestroy(id);
    Pow256Widths();
    EncodedHeader(e);
    assert Encode(e)[HeaderSize..] == Payload(e);
    UnwordsWords([id], 4);
  }

  lemma DecodeEncodeFbDirty(cmd: DirtyCmd, clips: seq<ClipRect>)
    requires WellFormed(FbDirty(cmd, clips))
    ensures Decode(Encode(FbDirty(cmd, clips))) == Some(FbDirty(cmd, clips))
  {
    var e := FbDirty(cmd, clips);
    Pow256Widths();
    EncodedHeader(e);
    var p := Payload(e);
    assert Encode(e)[HeaderSize..] == p;
    var cw: seq<nat> := [cmd.fbId, cmd.flags, cmd.color, |clips|];
    assert p[..16] == Words(cw, 4);
    assert p[DirtyCmdSize..] == ClipBytes(clips);
    UnwordsWords(cw, 4);
    DecodeClipsRoundTrip(clips);
  }

  /** A consumer that parses a record gets back exactly the event the driver posted. */
  lemma DecodeEncode(e: Event)
    requires WellFormed(e)
    ensures Decode(Encode(e)) == Some(e)
  {
    match e {
      case FbCreate(f) => DecodeEncodeFbCreate(f);
      case FbDestroy(id) => DecodeEncodeFbDestroy(id);
      case FbDirty(cmd, clips) => DecodeEncodeFbDirty(cmd, clips);
      case PipeEnable => EncodedHeader(e);
      case PipeDisable => EncodedHeader(e);
    }
  }

  // ---------------------------------------------------------------------
  // Buffer modes

  /** The base transfer modes; no transcoder implementing them is part of the driver. */
  datatype BufBase = NoBuffer | PlainCopy | SwapBytes

  function BaseCode(b: BufBase): U32
  {
    match b
    case NoBuffer => BufModeNone
    case PlainCopy => BufModePlainCopy
    case SwapBytes => BufModeSwapBytes
  }

  /** The base mode held in the low byte of a buf_mode word, if it is one of the defined ones. */
  function BufModeBase(m: U32): Option<BufBase>
  {
    var low := m % 0x100;
    if low == BufModeNone then Some(NoBuffer)
    else if low == BufModePlainCopy then Some(PlainCopy)
    else if low == BufModeSwapBytes then Some(SwapBytes)
    else None
  }

  /** Whether the XRGB8888 emulation bit (bit 8) is set. */
  predicate BufModeEmulates(m: U32)
  {
    (m / BufModeEmulXrgb8888) % 2 == 1
  }

  /** A buf_mode word: a base mode, optionally OR-ed with the emulation bit; both parts are recovered. */
  function BufMode(base: BufBase, emulate: bool): (m: U32)
    ensures BufModeBase(m) == Some(base)
    ensures BufModeEmulates(m) == emulate
    ensures !emulate ==> m == BaseCode(base)
  {
    if emulate then BaseCode(base) + BufModeEmulXrgb8888 else BaseCode(base)
  }

  // ---------------------------------------------------------------------
  // Device-create request (struct udrm_dev_create)

  /** The fields of drm_mode_modeinfo the driver relies on. */
  datatype ModeInfo = ModeInfo(hdisplay: U16, vdisplay: U16, typeBits: U32, name: Bytes)

  datatype DevCreate = DevCreate(name: Bytes, mode: ModeInfo, formats: U64, numFormats: U32,
                                 bufMode: U32, bufFd: I32, index: U32)

  /** The name field is a fixed array of MaxNameSize bytes. */
  predicate ValidRequest(req: DevCreate)
  {
    |req.name| == MaxNameSize
  }

  /**
   * The size of struct udrm_dev_create: the 80-byte name, the 68-byte
   * drm_mode_modeinfo, 4 bytes of padding before the u64 formats mask, then
   * four 32-bit fields.
   */
  const DevCreateSize: nat := MaxNameSize + 68 + 4 + 8 + 4 * 4

  /** The ioctl type of the udrm device (UDRM_IOCTL_BASE). */
  const IoctlBase: nat := 0xB5

  /** _IOWR(ty, nr, size): direction bits 3, then size, type and number. */
  function IoWR(ty: nat, nr: nat, size: nat): (cmd: U32)
    requires ty < 0x100 && nr < 0x100 && size < 0x4000
    ensures cmd / 0x4000_0000 == 3 && (cmd / 0x1_0000) % 0x4000 == size
    ensures (cmd / 0x100) % 0x100 == ty && cmd % 0x100 == nr
  {
    var high := 3 * 0x4000 + size;
    var upper := high * 0x100 + ty;
    var cmd := upper * 0x100 + nr;
    assert upper / 0x100 == high && upper % 0x100 == ty;
    assert high / 0x4000 == 3 && high % 0x4000 == size;
    assert cmd / 0x100 == upper && cmd % 0x100 == nr;
    assert cmd / 0x1_0000 == high;
    cmd
  }

  /** UDRM_DEV_CREATE. */
  const DevCreateCmd: U32 := IoWR(IoctlBase, 1, DevCreateSize)

  lemma DevCreateCmdValue()
    ensures DevCreateSize == 176
    ensures DevCreateCmd == 0xC0B0_B501
  {
  }
}
