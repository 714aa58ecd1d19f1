/**
 * The single-slot event mailbox of udrm-dev.c (udrm-drv.c carries an
 * identical copy). The producer posts an event into the slot and waits for
 * the consumer's reply; the consumer reads the slot through read(2), answers
 * through write(2) and polls for it.
 *
 * Blocking is abstracted. Whatever the consumer does while the producer
 * waits is an input sequence of consumer operations; the completion is its
 * kernel count (reinit sets it to zero, complete adds one, a wait that finds
 * it positive takes one, and a wait that finds it zero has timed out). An
 * interrupted lock and the end of a blocked read's wait are inputs too.
 */
module Dev {
  import opened Uapi
  import opened Errno
  import opened Udrm

  /** sizeof(int): the only reply size write accepts. */
  const ReplySize: nat := 4

  /** POLLIN and POLLRDNORM. */
  const PollIn: U32 := 0x001
  const PollRdNorm: U32 := 0x040

  /** The mailbox fields of the device record. */
  datatype Channel = Channel(ev: Option<Event>, eventRet: int, done: nat, initialized: bool)

  function ChannelOf(d: Device): Channel
    reads d
  {
    Channel(d.ev, d.eventRet, d.done, d.initialized)
  }

  /** A channel after an operation, with the operation's return value. */
  datatype Step = Step(ch: Channel, ret: int)

  /** As Step, with the bytes a read copies out. */
  datatype ReadStep = ReadStep(ch: Channel, ret: int, data: Bytes)

  /** What ends a blocked read's wait: a signal, or a producer posting an event. */
  datatype Wake = Signal | Arrive(e: Event)

  /**
   * Every event the driver posts has a wire form (its planes padded to four
   * and its length within the u32 length field); the slot only ever holds such events.
   */
  predicate Posted(c: Channel)
  {
    c.ev.Some? ==> WellFormed(c.ev.value)
  }

  predicate WakeValid(w: Wake)
  {
    w.Arrive? ==> WellFormed(w.e)
  }

  /** Whether the first and the second acquisition of the mailbox lock are interrupted, and what ends the wait. */
  datatype ReadEnv = ReadEnv(lockIntr: bool, wake: Wake, relockIntr: bool)

  // ---------------------------------------------------------------------
  // write(2): the consumer's reply

  predicate ReplyAccepted(initialized: bool, count: nat, fault: bool, lockIntr: bool)
  {
    initialized && count == ReplySize && !fault && !lockIntr
  }

  /**
   * udrm_write. An accepted reply records the code, completes once and
   * returns the count; every other outcome leaves the mailbox as it was.
   */
  function WriteSpec(c: Channel, count: nat, value: I32, fault: bool, lockIntr: bool): (s: Step)
    ensures ReplyAccepted(c.initialized, count, fault, lockIntr) ==>
              s == Step(c.(eventRet := value, done := c.done + 1), ReplySize)
    ensures !ReplyAccepted(c.initialized, count, fault, lockIntr) ==> s.ch == c && s.ret <= 0
    ensures s.ret == 0 <==> c.initialized && count == 0
    ensures !c.initialized ==> s.ret == -EINVAL
    ensures c.initialized && count != 0 && count != ReplySize ==> s.ret == -EINVAL
  {
    if !c.initialized then Step(c, -EINVAL)
    else if count == 0 then Step(c, 0)
    else if count != ReplySize then Step(c, -EINVAL)
    else if fault then Step(c, -EFAULT)
    else if lockIntr then Step(c, -EINTR)
    else Step(c.(eventRet := value, done := c.done + 1), count)
  }

  method Write(d: Device, count: nat, value: I32, fault: bool, lockIntr: bool) returns (ret: int)
    modifies d`eventRet, d`done
    ensures Step(ChannelOf(d), ret) == WriteSpec(old(ChannelOf(d)), count, value, fault, lockIntr)
  {
    if !d.initialized {
      return -EINVAL;
    }
    if count == 0 {
      return 0;
    }
    if count != ReplySize {
      return -EINVAL;
    }
    if fault {
      return -EFAULT;
    }
    if lockIntr {
      return -EINTR;
    }
    d.eventRet := value;
    d.done := d.done + 1;
    ret := count;
  }

  // ---------------------------------------------------------------------
  // read(2): the consumer takes the pending event

  /** Hands out event e and empties the slot, whatever the outcome. */
  function Deliver(c: Channel, e: Event, count: nat, fault: bool): ReadStep
    requires WellFormed(e)
  {
    var emptied := c.(ev := None);
    if count < Length(e) then ReadStep(emptied, -EINVAL, [])
    else if fault then ReadStep(emptied, -EFAULT, [])
    else ReadStep(emptied, Length(e), Encode(e))
  }

  /** The event a read with these inputs hands out, if it reaches one. */
  function Delivered(c: Channel, nonblock: bool, env: ReadEnv): Option<Event>
  {
    if c.ev.Some? then c.ev
    else if !nonblock && env.wake.Arrive? then Some(env.wake.e)
    else None
  }

  /** A blocking read that found the slot empty and was woken by a send's post. */
  predicate Woken(c: Channel, count: nat, nonblock: bool, env: ReadEnv)
  {
    count > 0 && !env.lockIntr && c.ev.None? && !nonblock && env.wake.Arrive?
  }

  /**
   * udrm_read. A send that wakes a blocked read has reinitialised the
   * completion before posting, so the read then sees the count at zero.
   */
  function ReadSpec(c: Channel, count: nat, nonblock: bool, fault: bool, env: ReadEnv): (s: ReadStep)
    requires Posted(c) && WakeValid(env.wake)
    ensures Posted(s.ch)
    ensures s.ch.eventRet == c.eventRet && s.ch.initialized == c.initialized
    ensures s.ch.done == if Woken(c, count, nonblock, env) then 0 else c.done
    ensures s.ret == 0 <==> count == 0
    ensures count > 0 && !env.lockIntr && c.ev.Some? ==> s.ch == c.(ev := None)
    ensures count > 0 && !env.lockIntr && c.ev.None? && nonblock ==> s == ReadStep(c, -EAGAIN, [])
  {
    if count == 0 then ReadStep(c, 0, [])
    else if env.lockIntr then ReadStep(c, -EINTR, [])
    else if c.ev.Some? then Deliver(c, c.ev.value, count, fault)
    else if nonblock then ReadStep(c, -EAGAIN, [])
    else match env.wake
      case Signal => ReadStep(c, -ERESTARTSYS, [])
      case Arrive(e) =>
        // the sender reinitialised the completion before posting e
        var posted := c.(ev := Some(e), done := 0);
        if env.relockIntr then ReadStep(posted, -EINTR, [])
        else Deliver(posted, e, count, fault)
  }

  /**
   * udrm_read, with its do-while loop: each round takes the lock, looks at
   * the slot and, when a blocking read finds it empty, waits.
   */
  method Read(d: Device, count: nat, nonblock: bool, fault: bool, env: ReadEnv) returns (ret: int, data: Bytes)
    requires Posted(ChannelOf(d)) && WakeValid(env.wake)
    modifies d`ev, d`done
    ensures ReadStep(ChannelOf(d), ret, data) == ReadSpec(old(ChannelOf(d)), count, nonblock, fault, env)
  {
    data := [];
    if count == 0 {
      return 0, [];
    }
    ret := 0;
    var woken := false;
    while true
      invariant ret == 0 && data == []
      invariant !woken ==> d.ev == old(d.ev) && d.done == old(d.done)
      invariant woken ==> !env.lockIntr && !nonblock && old(d.ev).None? && env.wake.Arrive?
                          && d.ev == Some(env.wake.e) && d.done == 0
      decreases if woken then 0 else 1
    {
      var interrupted := if woken then env.relockIntr else env.lockIntr;
      if interrupted {
        return -EINTR, [];
      }
      if d.ev.None? && nonblock {
        ret := -EAGAIN;
      } else if d.ev.Some? {
        var e := d.ev.value;
        if count < Length(e) {
          ret := -EINVAL;
        } else if fault {
          ret := -EFAULT;
        } else {
          ret := Length(e);
          data := Encode(e);
        }
        d.ev := None;
      }
      if ret != 0 {
        break;
      }
      if !nonblock {
        match env.wake
        case Signal =>
          ret := -ERESTARTSYS;
        case Arrive(posted) =>
          d.ev, d.done := Some(posted), 0;
          woken := true;
      }
      if ret != 0 {
        break;
      }
    }
  }

  // ---------------------------------------------------------------------
  // poll(2)

  /** udrm_poll: readable exactly when an event is pending. */
  function Poll(d: Device): (mask: U32)
    reads d
    ensures mask != 0 <==> d.ev.Some?
    ensures mask != 0 ==> mask == PollIn + PollRdNorm
  {
    if d.ev.Some? then PollIn + PollRdNorm else 0
  }

  // ---------------------------------------------------------------------
  // open(2)

  /** udrm_open: a zero-filled device record, or -ENOMEM. */
  method Open(allocFails: bool) returns (ret: int, d: Device?)
    ensures allocFails ==> ret == -ENOMEM && d == null
    ensures !allocFails ==> ret == 0 && d != null && fresh(d) && d.Zeroed()
  {
    if allocFails {
      return -ENOMEM, null;
    }
    d := new Device();
    ret := 0;
  }

  // ---------------------------------------------------------------------
  // The producer: udrm_send_event

  /** One consumer operation that runs while the producer waits for its reply. */
  datatype ConsumerOp =
    | ReadOp(count: nat, nonblock: bool, fault: bool, lockIntr: bool)
    | WriteOp(count: nat, value: I32, fault: bool, lockIntr: bool)

  /** The inputs of one send: allocation failure, an interrupted lock, and the consumer's operations. */
  datatype SendEnv = SendEnv(allocFails: bool, lockIntr: bool, consumer: seq<ConsumerOp>)

  /**
   * A consumer read during a send cannot be woken by another event (sends
   * are serialised), so a blocked one ends with a signal.
   */
  function ReadEnvDuringSend(lockIntr: bool): ReadEnv
  {
    ReadEnv(lockIntr, Signal, false)
  }

  function Apply(c: Channel, op: ConsumerOp): (c': Channel)
    requires Posted(c)
    ensures Posted(c')
  {
    match op
    case ReadOp(count, nonblock, fault, lockIntr) =>
      ReadSpec(c, count, nonblock, fault, ReadEnvDuringSend(lockIntr)).ch
    case WriteOp(count, value, fault, lockIntr) =>
      WriteSpec(c, count, value, fault, lockIntr).ch
  }

  /** The channel after the consumer's operations, in order. */
  function Run(c: Channel, ops: seq<ConsumerOp>): (c': Channel)
    requires Posted(c)
    ensures Posted(c')
    decreases |ops|
  {
    if ops == [] then c else Apply(Run(c, ops[..|ops| - 1]), ops[|ops| - 1])
  }

  /** udrm_send_event: the reply code itself is never part of the result. */
  function SendSpec(c: Channel, e: Event, env: SendEnv): (s: Step)
    requires WellFormed(e)
    ensures env.allocFails ==> s == Step(c, -ENOMEM)
    ensures s.ret == 0 || s.ret == -ENOMEM || s.ret == -EINTR || s.ret == -ETIMEDOUT
    ensures s.ch.initialized == c.initialized
  {
    if env.allocFails then Step(c, -ENOMEM)
    else if env.lockIntr then Step(c.(done := 0), -EINTR)
    else
      var after := Run(c.(ev := Some(e), done := 0), env.consumer);
      RunKeepsInitialized(c.(ev := Some(e), done := 0), env.consumer);
      if after.done > 0 then Step(after.(done := after.done - 1), 0)
      else Step(after, -ETIMEDOUT)
  }

  method SendEvent(d: Device, e: Event, env: SendEnv) returns (ret: int)
    requires WellFormed(e)
    modifies d`ev, d`eventRet, d`done
    ensures Step(ChannelOf(d), ret) == SendSpec(old(ChannelOf(d)), e, env)
  {
    if env.allocFails {
      return -ENOMEM;
    }
    d.done := 0;
    if env.lockIntr {
      return -EINTR;
    }
    d.ev := Some(e);
    ghost var posted := ChannelOf(d);
    var ops := env.consumer;
    var i := 0;
    while i < |ops|
      invariant 0 <= i <= |ops|
      invariant ChannelOf(d) == Run(posted, ops[..i])
    {
      assert ops[..i + 1][..i] == ops[..i];
      match ops[i] {
        case ReadOp(count, nonblock, fault, lockIntr) =>
          var r, data := Read(d, count, nonblock, fault, ReadEnvDuringSend(lockIntr));
        case WriteOp(count, value, fault, lockIntr) =>
          var r := Write(d, count, value, fault, lockIntr);
      }
      i := i + 1;
    }
    assert ops[..i] == ops;
    if d.done > 0 {
      d.done := d.done - 1;
      ret := 0;
    } else {
      ret := -ETIMEDOUT;
    }
  }

  // ---------------------------------------------------------------------
  // Properties

  /** A consumer operation that counts as a reply. */
  predicate Accepts(initialized: bool, op: ConsumerOp)
  {
    op.WriteOp? && ReplyAccepted(initialized, op.count, op.fault, op.lockIntr)
  }

  /** The number of accepted replies among the operations. */
  function Replies(initialized: bool, ops: seq<ConsumerOp>): nat
    decreases |ops|
  {
    if ops == [] then 0
    else Replies(initialized, ops[..|ops| - 1]) + (if Accepts(initialized, ops[|ops| - 1]) then 1 else 0)
  }

  lemma {:induction false} RunKeepsInitialized(c: Channel, ops: seq<ConsumerOp>)
    requires Posted(c)
    ensures Run(c, ops).initialized == c.initialized
    decreases |ops|
  {
    if ops != [] {
      RunKeepsInitialized(c, ops[..|ops| - 1]);
    }
  }

  /** Each accepted reply completes once; nothing else touches the completion. */
  lemma {:induction false} RunCountsReplies(c: Channel, ops: seq<ConsumerOp>)
    requires Posted(c)
    ensures Run(c, ops).done == c.done + Replies(c.initialized, ops)
    decreases |ops|
  {
    if ops != [] {
      RunCountsReplies(c, ops[..|ops| - 1]);
      RunKeepsInitialized(c, ops[..|ops| - 1]);
    }
  }

  /**
   * Send returns 0 exactly when the event was posted and the consumer
   * replied before the timeout, whatever code it replied with.
   */
  lemma SendSucceedsIffReplied(c: Channel, e: Event, env: SendEnv)
    requires WellFormed(e)
    ensures SendSpec(c, e, env).ret == 0 <==>
              !env.allocFails && !env.lockIntr && Replies(c.initialized, env.consumer) > 0
  {
    if !env.allocFails && !env.lockIntr {
      RunCountsReplies(c.(ev := Some(e), done := 0), env.consumer);
    }
  }

  /**
   * Without a reply the send times out and the slot still holds the event,
   * overwriting whatever was there; a later read then delivers it intact.
   */
  lemma TimeoutLeavesEvent(c: Channel, e: Event, count: nat)
    requires WellFormed(e) && count >= Length(e)
    ensures var s := SendSpec(c, e, SendEnv(false, false, []));
            && s.ret == -ETIMEDOUT && s.ch.ev == Some(e)
            && var r := ReadSpec(s.ch, count, true, false, ReadEnv(false, Signal, false));
               r.ret == Length(e) && r.ch.ev == None && Decode(r.data) == Some(e)
  {
    DecodeEncode(e);
  }

  /**
   * A read that reaches an event returns its whole encoding, which decodes
   * back to the event.
   */
  lemma ReadDeliversEvent(c: Channel, count: nat, nonblock: bool, fault: bool, env: ReadEnv)
    requires Posted(c) && WakeValid(env.wake)
    requires ReadSpec(c, count, nonblock, fault, env).ret > 0
    ensures var s := ReadSpec(c, count, nonblock, fault, env);
            && Delivered(c, nonblock, env).Some?
            && var e := Delivered(c, nonblock, env).value;
               && WellFormed(e) && s.data == Encode(e) && s.ret == |s.data| == Length(e)
               && s.ch.ev == None && Decode(s.data) == Some(e)
  {
    DecodeEncode(Delivered(c, nonblock, env).value);
  }

  /** A buffer shorter than the pending event is refused and the event is lost. */
  lemma ShortReadLosesEvent(c: Channel, count: nat, nonblock: bool, fault: bool, env: ReadEnv)
    requires Posted(c) && WakeValid(env.wake)
    requires c.ev.Some? && 0 < count < Length(c.ev.value) && !env.lockIntr
    ensures ReadSpec(c, count, nonblock, fault, env) == ReadStep(c.(ev := None), -EINVAL, [])
  {
  }

  /**
   * The full exchange: the consumer reads the posted event with a large
   * enough buffer and replies with any code v. The send returns 0, the slot
   * is empty, the code is recorded and the completion is used up.
   */
  lemma ExchangeRoundTrip(c: Channel, e: Event, count: nat, v: I32)
    requires WellFormed(e) && c.initialized && count >= Length(e)
    ensures var env := SendEnv(false, false, [ReadOp(count, false, false, false), WriteOp(ReplySize, v, false, false)]);
            SendSpec(c, e, env) == Step(c.(ev := None, eventRet := v, done := 0), 0)
  {
    var ops := [ReadOp(count, false, false, false), WriteOp(ReplySize, v, false, false)];
    var p := c.(ev := Some(e), done := 0);
    assert ops[..1][..0] == [];
    assert Run(p, ops[..1]) == p.(ev := None);
    assert ops[..|ops| - 1] == ops[..1];
  }
}
