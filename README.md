# udrm-kernel in Dafny

udrm is a Linux DRM driver whose display hardware is driven from userspace.
A process opens the `udrm` character device and issues the create ioctl
with a display mode and a name; the kernel then registers a DRM device
with one display pipe. From then on the kernel talks to that process
through a single-slot mailbox. The kernel posts an event into the slot
(pipe enable or disable, framebuffer create or destroy, a dirty flush with
its clip) and waits up to five seconds for a reply. The process reads the
event with read(2), answers with a 4-byte write(2), and can poll(2) for
pending events.

This project models that core:

- `errno.dfy` (`Errno`): the error numbers the driver returns.
- `uapi.dfy` (`Uapi`): the userspace ABI. This covers the event records
  and their little-endian wire form, with a decode that inverts it. It also
  covers the buffer-mode constants, the create request and the
  `UDRM_DEV_CREATE` ioctl number.
- `clips.dfy` (`Clips`): `tinydrm_merge_clips`, which folds a clip list
  into one bounding rectangle.
- `udrm.dfy` (`Udrm`): the device record `struct udrm_device` as a class,
  and framebuffers as objects compared by identity. DRM framework calls
  are recorded in a ghost trace.
- `dev.dfy` (`Dev`): the mailbox, that is send, read, write, poll and
  open. Each operation is a specification function on the mailbox fields,
  plus a method on the device proved equal to it.
- `fb.dfy` (`Fb`): the framebuffer id table (idr) and the create, destroy
  and dirty callbacks.
- `pipe.dfy` (`Pipe`): pipe enable/disable/update, the connector's mode
  list, and pipe initialisation.
- `drv.dfy` (`Drv`): registration and its unwind path, teardown, the
  release work, the create ioctl, last close, the deferred flush and the
  PRIME flag check.

Blocking is abstracted:

- The consumer operations that run while a send waits are an input
  sequence.
- The completion is its kernel counter. Reinit sets it to zero, complete
  adds one, and a wait that finds it positive takes one. A wait that finds
  it zero has timed out.
- An interrupted lock, what ends a blocked read's wait, allocation
  failures and `copy_*_user` faults are boolean inputs.
- Each framework call's result is an input.

## Model

| member | source | states |
|---|---|---|
| Uapi.TypeCodesDistinct | include/uapi/drm/udrm.h:52-63 | Two events have the same type code iff they are the same kind of event. |
| Uapi.LittleEndianRoundTrip | include/uapi/drm/udrm.h:47-50 | A value below 256^w survives encoding as a w-byte little-endian field and decoding. |
| Uapi.UnwordsWords | include/uapi/drm/udrm.h:47-50 | A run of fixed-width fields splits back into exactly the values written. |
| Uapi.DecodeClipsRoundTrip | include/uapi/drm/udrm.h:65-69 | The trailing clip array decodes back to the clips written. |
| Uapi.DecodeFbCmdRoundTrip | udrm-fb.c:35-55 | The framebuffer command of a create event decodes back to its ids, sizes, format, flags and four plane layouts. |
| Uapi.EncodedHeader | include/uapi/drm/udrm.h:47-50 | Every record starts with its u32 type and a u32 length equal to the record's size. |
| Uapi.DecodeEncodeFbCreate | udrm-fb.c:29-55 | A create event parses back to itself. |
| Uapi.DecodeEncodeFbDestroy | include/uapi/drm/udrm.h:58-61 | A destroy event (header plus u32 fb id) parses back to itself. |
| Uapi.DecodeEncodeFbDirty | include/uapi/drm/udrm.h:65-69 | A dirty event (header, dirty command, clip array) parses back to itself. |
| Uapi.DecodeEncode | include/uapi/drm/udrm.h:47-69 | Any event the driver can post is recovered exactly from its wire form. |
| Uapi.BufMode | include/uapi/drm/udrm.h:28-32 | The XRGB8888 emulation bit can be OR-ed onto any base mode, and both the base mode and the bit are recovered from the word. |
| Uapi.IoWR | include/uapi/drm/udrm.h:45 | An `_IOWR` number holds direction 3, the size, the type and the number in their own bit fields. |
| Uapi.DevCreateCmdValue | include/uapi/drm/udrm.h:34-45 | The create request is 176 bytes and `UDRM_DEV_CREATE` is 0xC0B0B501. |
| Clips.Selected | udrm-fb.c:109-111 | Without annotate-copy the merge reads every clip; with it, only the odd-indexed ones. |
| Clips.MergeClips | udrm-fb.c:90-127 | The loop as written (including the extra index step under annotate-copy) stores exactly `Merged`. |
| Clips.HullIsBoundingBox | udrm-fb.c:104-116 | The fold from (~0, ~0, 0, 0) yields the bounding box: x1/y1 are the minima and x2/y2 the maxima, each attained by some clip. |
| Clips.BoundingBoxUnique | udrm-fb.c:104-116 | A list has only one bounding box. |
| Clips.MergeAbsentIsFullFrame | udrm-fb.c:96-101 | An absent or empty list gives (0, 0, max_width, max_height). |
| Clips.MergeIsBoundingBoxOrFullFrame | udrm-fb.c:104-126 | A non-empty list gives either its bounding box, when that is legal, or the full frame, when the box is illegal. |
| Clips.MergeIsLegal | udrm-fb.c:96-126 | For a frame within 16 bits, the result always satisfies 0 <= x1 < x2 <= max_width and 0 <= y1 < y2 <= max_height. |
| Clips.MergeFullFrameIsFullFrame | udrm-fb.c:90-127 | Merging the full frame alone returns it unchanged. |
| Clips.AnnotateReadsInBounds | udrm-fb.c:109-111 | Under annotate-copy every index read is within n clips iff n is even; for odd n the last read is src[n]. |
| Udrm.Framebuffer.constructor | udrm-fb.c:41-55 | A framebuffer keeps the id, size, format, flags and plane layouts it was made with. |
| Udrm.Device.constructor | udrm-dev.c:90-97 | A new device record is zero-filled: no event, no pending completion, an empty table, not initialised. |
| Dev.WriteSpec | udrm-dev.c:106-136 | Uninitialised gives -EINVAL, count 0 gives 0, any count but 4 gives -EINVAL. Otherwise the code is recorded, completion fires once and 4 is returned. A refused write changes nothing. |
| Dev.Write | udrm-dev.c:106-136 | The device's mailbox and result after write are those of `WriteSpec`. |
| Dev.ReadSpec | udrm-dev.c:138-177 | Count 0 gives 0, and a non-blocking read of an empty slot gives -EAGAIN. A pending event is taken out of the slot whatever the outcome. A blocked read woken by a send sees that send's event, with the completion count reset to zero by the send; otherwise the reply code and completion are untouched. |
| Dev.Read | udrm-dev.c:138-177 | The do-while loop (lock, inspect, wait) produces exactly `ReadSpec`'s mailbox (slot and completion count), result and bytes. |
| Dev.Poll | udrm-dev.c:179-190 | Readable (POLLIN and POLLRDNORM) exactly when the slot holds an event. |
| Dev.Open | udrm-dev.c:86-104 | -ENOMEM with no device, or 0 with a fresh zero-filled device. |
| Dev.Apply | udrm-dev.c:106-177 | A consumer operation keeps the slot holding only events that have a wire form. |
| Dev.Run | udrm-dev.c:106-177 | As `Apply`, for a sequence of consumer operations. |
| Dev.SendSpec | udrm-dev.c:28-68 | Copy failure gives -ENOMEM and leaves the slot untouched. Otherwise the slot is overwritten without a check. Interruption, 0 and -ETIMEDOUT are the only other results, and the reply code is never one of them. |
| Dev.SendEvent | udrm-dev.c:28-68 | The mailbox after a send, with the consumer's operations run while it waits, is `SendSpec`'s. |
| Dev.RunKeepsInitialized | udrm-dev.c:106-177 | Consumer operations never change `initialized`. |
| Dev.RunCountsReplies | udrm-dev.c:130-131 | The completion count grows by exactly the number of accepted replies. |
| Dev.SendSucceedsIffReplied | udrm-dev.c:54-60 | Send returns 0 iff the event was posted and at least one reply was accepted before the wait ended, whatever code was replied. |
| Dev.TimeoutLeavesEvent | udrm-dev.c:47-60 | Without a reply the send times out and leaves the event in the slot. A later read delivers it and it decodes to the event. |
| Dev.ReadDeliversEvent | udrm-dev.c:155-165 | A successful read returns the whole encoding of the event it reached, with its length, and empties the slot. The bytes decode back to the event. |
| Dev.ShortReadLosesEvent | udrm-dev.c:157-164 | A buffer shorter than the pending event gives -EINVAL and the event is discarded. |
| Dev.ExchangeRoundTrip | udrm-dev.c:28-136 | Post, read, then a reply of any code v: send returns 0, the slot is empty, v is recorded and the completion is used up. |
| Fb.IdrAlloc | udrm-fb.c:57-61 | The table only ever gains fb at exactly fb's id; a failed allocation leaves it as it was. -ENOSPC iff the id is taken. Success iff the id is free, within INT_MAX and memory is available. |
| Fb.FindFb | udrm-fb.c:214-222 | Returns the least id whose entry is fb, or None exactly when no entry is fb. |
| Fb.RegistryRoundTrip | udrm-fb.c:57-61 | In a table where each framebuffer sits at its own id, inserting keeps that true. The new fb is found only at its id, and removing that id restores the table. |
| Fb.CreateCmd | udrm-fb.c:41-55 | The command carries the leading backed planes' layouts in order, and zero in the remaining slots of four. |
| Fb.BuildCreateCmd | udrm-fb.c:41-55 | The copying loop produces `CreateCmd`. |
| Fb.CreateEvent | udrm-fb.c:26-66 | The table and mailbox after a create event are `CreateSpec`'s: first register at the id, then send only if the id is at least 1. |
| Fb.Create | udrm-fb.c:238-260 | A framebuffer the framework made is announced and returned whatever the announcement's result; a failure is passed on with nothing changed. |
| Fb.CreateKeepsRegistry | udrm-fb.c:57-63 | A create keeps the table valid and adds at most fb at its id. -ENOSPC iff the id was taken. An event is sent only after fb is registered at an id of at least 1. |
| Fb.SendSpecNeverEnospc | udrm-dev.c:28-68 | A send never yields -ENOSPC, so that result comes from the table alone. |
| Fb.CreateIdZeroSilent | udrm-fb.c:57-61 | A framebuffer with id 0 is registered, but no event is sent and 0 is returned. |
| Fb.CreateEventShape | udrm-fb.c:29-44 | The create event has type 3, length 8 + 104, and the framebuffer's id and size; it parses back to itself. |
| Fb.Destroy | udrm-fb.c:200-230 | No matching entry: nothing changes and no event is sent. Otherwise the least id holding fb is removed, its id is posted in a destroy event, and fb is released. In a valid table the reported id is fb's own. |
| Fb.CheckDirty | udrm-fb.c:69-88 | Accepts iff the pipe is prepared and fb is the plane's framebuffer. Before the first flush the clip list is dropped. |
| Fb.Dirty | udrm-fb.c:129-198 | Refused flush: -EINVAL and nothing changes. Otherwise `enabled` is set and the fbdev framebuffer is announced once. Then -ENOMEM, or one dirty event is sent carrying the merged clip at full width. |
| Fb.DirtyEventShape | udrm-fb.c:154-176 | A flush event has type 5, length 8 + 24 + 8 = 40, the framebuffer's id, flags and color, and one clip with x1 = 0 and x2 = width. |
| Fb.DirtyClipInFrame | udrm-fb.c:154-159 | For a frame within 16 bits the sent clip spans the full width and a non-empty band of the frame's rows, namely those of the merge. |
| Fb.FirstFlushIsFullFrame | udrm-fb.c:81-85 | A flush before the pipe is enabled sends the whole frame. |
| Pipe.Enable | udrm-pipe.c:70-82 | `prepared` is set and a pipe-enable event is sent. |
| Pipe.Disable | udrm-pipe.c:84-96 | `prepared` and `enabled` are cleared and a pipe-disable event is sent. |
| Pipe.PipeEventsShape | udrm-pipe.c:74-90 | The pipe events are bare 8-byte headers with type codes 1 and 2, so their wire forms differ. |
| Pipe.Update | udrm-pipe.c:98-129 | A non-null fb differing from the old one becomes the plane's fb and a flush is scheduled; otherwise neither changes. `fbdev_used` is set when the fbdev framebuffer is shown. |
| Pipe.WithPreferred | udrm-pipe.c:35 | The PREFERRED bit (bit 3) is set and every other type bit is kept. |
| Pipe.GetModes | udrm-pipe.c:21-44 | 0 with nothing changed if duplication fails. Otherwise 1, with the mode named and marked preferred added to the list. The physical size is copied only when the mode has one. |
| Pipe.ProbedModeKeepsMode | udrm-pipe.c:26-36 | The offered mode keeps the size and physical size and is preferred. A name it had is kept; an empty one is generated. |
| Pipe.PinnedAdmitsOnlyModeSize | udrm-pipe.c:147-150 | After pinning, the only size within the limits is hdisplay x vdisplay. |
| Pipe.PipeInit | udrm-pipe.c:137-166 | Limits are pinned to the mode, then connector and pipe are initialised. A pipe failure cleans up the connector, and the first failure is returned. |
| Pipe.PipeInitUnwinds | udrm-pipe.c:153-165 | Success iff connector and pipe init both ran and succeeded. A pipe failure ends with the connector's cleanup, and a connector failure stops at once. |
| Drv.CString | udrm-drv.c:196 | The string read from a buffer: the bytes before its first NUL, none of them NUL, or all of the buffer if it has none. |
| Drv.CStringStopsAtNul | udrm-drv.c:196 | A NUL inside a buffer ends the string there, whatever follows. |
| Drv.KstrdupAsWritten | udrm-drv.c:196 | The name as copied now can be as long as the field plus what follows it. It equals the field's string when the field holds a NUL. |
| Drv.NameOverrun | udrm-drv.c:196 | An 80-byte name with no NUL, followed by a mode whose clock is 66, yields an 81-byte driver name ending in a byte of the mode. |
| Drv.DriverName | udrm-drv.c:196-198 | The corrected copy is at most 80 bytes, a NUL-free prefix of the field, and ends at its first NUL. |
| Drv.DriverNameAgrees | udrm-drv.c:196 | Wherever the field holds a NUL, the corrected copy is the same as the current one. |
| Drv.Fini | udrm-drv.c:240-249 | Tear-down of a failed or finished registration cleans up the mode config. |
| Drv.DrmInit | udrm-drv.c:190-238 | A failed name copy gives -ENOMEM with no framework call. Otherwise the name (the bounded copy of "## Findings") is set and the device initialised. Its failure is returned before the mode config is initialised. |
| Drv.Register | udrm-drv.c:251-298 | The result is the first failure. The calls are `RegisterCalls`, with unwinding through fini. A conversion failure changes nothing. `RegisteredState` holds: the mode comes from the request, the name is its bounded copy, and limits are pinned with depth 16 once the pipe exists. The index is set and the fbdev helper recorded only on success. |
| Drv.RegisterConvertFirst | udrm-drv.c:256-258 | A failed mode conversion is returned before any allocation or framework call. |
| Drv.RegisterSucceedsIff | udrm-drv.c:251-298 | Registration returns 0 iff pipe init and device registration succeed. The calls are then init, mode config, connector, pipe, reset, register and fbdev init, in that order. |
| Drv.RegisterFbdevIgnored | udrm-drv.c:286-292 | A failed fbdev init changes neither the result nor the calls made (it is only logged). This holds by construction of `RegisterRet` and `RegisterCalls`; its one effect, no fbdev helper, is stated by `RegisteredState`. |
| Drv.FailedCallsUnwound | udrm-drv.c:269-297 | Each failing call sequence initialises the mode config once, cleans it up once, and ends with the cleanup. |
| Drv.RegisterUnwinds | udrm-drv.c:269-297 | A failed registration that got past mode config init has cleaned it up again as its last call. |
| Drv.Unregister | udrm-drv.c:300-312 | In order: force-disable, cancel dirty work, fbdev fini, unregister, fini. No flush stays pending and no fbdev helper is left. |
| Drv.RegisteredCounts | udrm-drv.c:251-298 | A successful registration makes each set-up call once and no teardown call. |
| Drv.UnregisterCounts | udrm-drv.c:300-312 | Teardown makes each teardown call once and no set-up call. |
| Drv.RegisterUnregisterBalanced | udrm-drv.c:251-312 | Successful registration then teardown: mode config init/cleanup, register/unregister and fbdev init/fini each happen exactly once. |
| Drv.ReleaseWork | udrm-drv.c:316-330 | The wait loop ends at the first zero open count, then unregisters and the work is no longer pending. While no check has seen zero, nothing changes. |
| Drv.Release | udrm-drv.c:438-446 | Close returns 0 and schedules teardown only for an initialised device. |
| Drv.Ioctl | udrm-drv.c:448-471 | Unknown command: -EINVAL. Copy-in fault: -EFAULT. Both leave the device untouched. Otherwise registration runs, leaving the calls and `RegisteredState` of `Drv.Register`, and `initialized` is set iff it succeeded. The result is its error, or -EFAULT on a copy-out fault after success. The copied-back request carries the primary index. |
| Drv.ReplyNeedsRegistration | udrm-dev.c:114-115 | Before a successful create ioctl, every write, even an empty one, is refused with -EINVAL and changes nothing. |
| Drv.LastClose | udrm-drv.c:76-85 | fbdev's mode is restored if fbdev was ever shown; otherwise all outputs are disabled. |
| Drv.DirtyWork | udrm-drv.c:165-182 | With a plane fb, a full-frame flush of it as `Fb.Dirty` with no clips: -EINVAL if the pipe is not prepared, else the one-time fbdev announcement, then -ENOMEM or the dirty event. With none, 0 and nothing is sent. The work is no longer pending. |
| Drv.DirtyWorkFlushesFullFrame | udrm-drv.c:172-173 | The deferred flush sends one full-frame clip for the plane's framebuffer. |
| Drv.PrimeHandleToFd | udrm-drv.c:127-140 | Any flag outside DRM_CLOEXEC and DRM_RDWR gives -EINVAL; otherwise the export's result. |
| Drv.PrimeFlagsAccepted | udrm-drv.c:135-136 | Exactly the four combinations of DRM_CLOEXEC and DRM_RDWR reach the export. |

## Left out

- The mailbox is implemented twice, in udrm-dev.c and in udrm-drv.c, with
  the same text. The model has one copy, and its rows cite udrm-dev.c.
  Open, release and the ioctl are modelled once as well.
- udrm-dmabuf.c and udrm-core.c (also copied at udrm-drv.c:87-125): buffer
  mapping, import and export wrappers over framework helpers. There is no
  logic of the driver's own in them.
- Threads, locks, the wait queue, the five-second timeout and `msleep` are
  not modelled as such. Their outcomes are inputs, as described above.
  Concurrent sends are serialised in the source, and one send is modelled
  at a time.
- The contents of the DRM framework: mode conversion and validation,
  device registration, connector and pipe set-up, and the fbdev
  emulation's set-up and deferred I/O (udrm-fb.c:262-338). Each is a call
  recorded in the trace, with its result as an input. A failed mode
  conversion is modelled as leaving the display mode as it was.
- The vblank events sent from `udrm_display_pipe_update` and
  `udrm_dirty_work`.
- The outputs that `drm_crtc_force_disable_all` switches off, during
  teardown or last close, call back into pipe disable. That nested call
  is not part of the trace.
- `drm_mode_set_name`: the generated name is an input of `Pipe.GetModes`.
- `Pipe.Update` (udrm-pipe.c:98-129) ignores the vblank event on the CRTC
  state.
- Module init and exit, and the misc device's registration.
- The request's `formats`, `num_formats`, `buf_mode` and `buf_fd` fields
  are ignored: the source never reads them. No pixel transcoding exists in
  the source; only the buffer-mode constants are modelled.
- Framebuffer ids above INT_MAX are refused by idr (-EINVAL). That is
  modelled; the idr's internal tree is not.
- Multi-byte fields are assumed little-endian, as on the host the consumer
  shares with the kernel.
- The struct sizes assume that `__u64` members are 8-byte aligned, as on
  x86-64 and ARM EABI. This gives `drm_mode_fb_cmd2` 104 bytes,
  `udrm_dev_create` 176 bytes, a create event of 8 + 104 bytes and
  `UDRM_DEV_CREATE` = 0xC0B0B501. On i386, where `__u64` is 4-byte aligned,
  these are 100 and 172 bytes, a 108-byte event and 0xC0ACB501. Those
  layouts are not modelled.
- Departures from the stated design that the code makes, kept as written:
  - the consumer's reply code is recorded but never returned by a send;
  - a read into a too-small buffer discards the event;
  - a send overwrites a pending event without a check;
  - a destroy whose framebuffer is not in the table does not release it;
  - the name copied before a failed `drm_dev_init` is not freed, which
    the model does not track.
- udrm-fb.c fills a `struct udrm_event_fb_create` and a
  `struct udrm_event_fb_destroy`. Neither type is declared in the uapi
  header, which only declares `struct udrm_event_fb`. The model takes the
  create event as the header followed by `drm_mode_fb_cmd2`, as the code
  fills it, and the destroy event as the header followed by the u32 id.
- The DRM uapi header (`drm_mode_fb_cmd2`, `drm_clip_rect`,
  `drm_mode_fb_dirty_cmd`, `drm_mode_modeinfo`) is not part of this model.
  Their sizes are stated as constants.
- Dev.ReadSpec / Dev.Read: a blocked read woken by a send sees the
  completion count the send reset to zero. Replies that other writers
  complete between the send's post and the read's wake-up are not
  modelled.
- Drv.DrmInit / Drv.Register: the device record stores the corrected,
  80-byte-bounded name `Drv.DriverName`. The copy as written at
  udrm-drv.c:196 can run past the field; that is `Drv.KstrdupAsWritten`,
  shown under "## Findings".
- Drv.Register: the physical size in millimetres is kept from the device
  record, not converted from the request. `drm_mode_modeinfo` carries no
  physical size.
- Drv.ReleaseWork: the open count is the sequence of values the loop
  observes. A sequence with no zero means the work is still waiting, not
  that it has ended.

## Findings

| source | as written | input that shows it | evidently intended | confidence | as-written member | corrected member |
|---|---|---|---|---|---|---|
| udrm-drv.c:196 | `kstrdup(dev_create->name)` copies up to the first NUL at or after the start of the 80-byte `name` field. | A request whose 80 name bytes are all non-zero, followed by a mode whose clock is 66, gives an 81-byte driver name ending in byte 0x42. With no NUL anywhere, the copy runs past the request. | The name is bounded by the field (`kstrndup(..., UDRM_MAX_NAME_SIZE)`). | not executed | Drv.NameOverrun | Drv.DriverName |
