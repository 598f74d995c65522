/**
 The CDP notification stream: binding notifications may arrive while a command waits for its response,
 so they are queued and handed out later.  A text frame is represented by what parsing it yields.
 */
module CdpQueue {
  import opened Sequences
  import opened Wrappers

  datatype Notification = Notification(methodName: string, params: string)

  datatype CdpError =
    | MissingWebSocketUrl | SocketError | Json | Malformed | WebSocketClosed
    | Protocol(code: int, message: string) | RuntimeException(detail: string)

  /** `Response` is any JSON that is not a call of the notification binding. */
  datatype Message =
    | NotJson
    | BindingCalled(payload: Option<Option<Notification>>)  // no payload text, or one that does not parse
    | Response(id: Option<nat>, failure: Option<CdpError>)

  datatype Frame = TextFrame(message: Message) | Ping | Close | OtherFrame | ReadError

  datatype Command = Command(id: nat, name: string)

  function NotificationFromBinding(m: Message): Result<Option<Notification>, CdpError> {
    match m
    case NotJson => Err(Json)
    case BindingCalled(None) => Err(Malformed)
    case BindingCalled(Some(None)) => Err(Json)
    case BindingCalled(Some(Some(n))) => Ok(Some(n))
    case Response(_, _) => Ok(None)
  }

  /** A frame at which reading stops for good. */
  predicate Stops(f: Frame) {
    match f
    case TextFrame(m) => NotificationFromBinding(m).Err?
    case Close => true
    case ReadError => true
    case _ => false
  }

  function NotificationIn(f: Frame): seq<Notification> {
    if f.TextFrame? && NotificationFromBinding(f.message).Ok? && NotificationFromBinding(f.message).value.Some?
    then [NotificationFromBinding(f.message).value.value] else []
  }

  /** The notifications that arrive before reading stops, in order. */
  function Bindings(frames: seq<Frame>): seq<Notification> {
    if frames == [] || Stops(frames[0]) then [] else NotificationIn(frames[0]) + Bindings(frames[1..])
  }

  predicate Answers(id: nat, f: Frame) {
    f.TextFrame? && f.message.Response? && f.message.id == Some(id)
  }

  /** The frame that ends the wait for the response to a command. */
  function Ends(id: nat): Frame -> bool {
    (f: Frame) => Answers(id, f) || Stops(f)
  }

  function StopError(f: Frame): CdpError
    requires Stops(f)
  {
    match f
    case TextFrame(m) => NotificationFromBinding(m).error
    case Close => WebSocketClosed
    case ReadError => SocketError
  }

  /** What a command yields: decided by the first frame that ends its wait. */
  function Verdict(id: nat, frames: seq<Frame>): Result<(), CdpError> {
    var k := IndexWhere(Ends(id), frames);
    if k == |frames| then Err(WebSocketClosed)
    else if Stops(frames[k]) then Err(StopError(frames[k]))
    else if frames[k].message.failure.Some? then Err(frames[k].message.failure.value)
    else Ok(())
  }

  /** The frames after the one that ended the wait. */
  function After(id: nat, frames: seq<Frame>): seq<Frame> {
    var k := IndexWhere(Ends(id), frames);
    if k < |frames| then frames[k + 1..] else []
  }

  /** What the first frame decides, while a command waits for its response and while a notification is awaited. */
  lemma FirstFrame(id: nat, f: Frame, rest: seq<Frame>)
    ensures var frames := [f] + rest;
      match f
      case Close => Verdict(id, frames) == Err(WebSocketClosed) && NextVerdict(frames) == Ok(None)
      case ReadError => Verdict(id, frames) == Err(SocketError) && NextVerdict(frames) == Err(SocketError)
      case Ping => Verdict(id, frames) == Verdict(id, rest) && NextVerdict(frames) == NextVerdict(rest)
      case OtherFrame => Verdict(id, frames) == Verdict(id, rest) && NextVerdict(frames) == NextVerdict(rest)
      case TextFrame(NotJson) => Verdict(id, frames) == Err(Json) && NextVerdict(frames) == Err(Json)
      case TextFrame(BindingCalled(None)) => Verdict(id, frames) == Err(Malformed) && NextVerdict(frames) == Err(Malformed)
      case TextFrame(BindingCalled(Some(None))) => Verdict(id, frames) == Err(Json) && NextVerdict(frames) == Err(Json)
      case TextFrame(BindingCalled(Some(Some(n)))) =>
        Verdict(id, frames) == Verdict(id, rest) && NextVerdict(frames) == Ok(Some(n))
      case TextFrame(Response(answered, failure)) =>
        && NextVerdict(frames) == NextVerdict(rest)
        && Verdict(id, frames) == if answered != Some(id) then Verdict(id, rest)
                                  else if failure.Some? then Err(failure.value) else Ok(())
    ensures Verdict(id, []) == Err(WebSocketClosed) && NextVerdict([]) == Ok(None)
  {
    var frames := [f] + rest;
    assert frames[1..] == rest && frames[0] == f;
  }

  /** The three commands of the handshake, each waiting where the previous one stopped. */
  function Handshake(frames: seq<Frame>): Result<(), CdpError> {
    var second := After(1, frames);
    var third := After(2, second);
    if Verdict(1, frames).Err? then Verdict(1, frames)
    else if Verdict(2, second).Err? then Verdict(2, second)
    else Verdict(3, third)
  }

  function Pings(frames: seq<Frame>): nat {
    if frames == [] then 0 else Pings(frames[..|frames| - 1]) + if frames[|frames| - 1] == Ping then 1 else 0
  }

  lemma PingsStep(frames: seq<Frame>, k: nat)
    requires k < |frames|
    ensures Pings(frames[..k + 1]) == Pings(frames[..k]) + if frames[k] == Ping then 1 else 0
  {
    assert frames[..k + 1][..k] == frames[..k];
  }

  lemma {:induction false} BindingsSplit(frames: seq<Frame>, k: nat)
    requires k <= |frames| && forall i :: 0 <= i < k ==> !Stops(frames[i])
    ensures Bindings(frames) == Bindings(frames[..k]) + Bindings(frames[k..])
  {
    if k == 0 {
      assert frames[..0] == [] && frames[0..] == frames;
    } else {
      BindingsSplit(frames[1..], k - 1);
      assert frames[1..][..k - 1] == frames[..k][1..];
      assert frames[1..][k - 1..] == frames[k..];
      AppendAssociates(NotificationIn(frames[0]), Bindings(frames[..k][1..]), Bindings(frames[k..]));
    }
  }

  lemma FirstEnd(id: nat, frames: seq<Frame>, k: nat)
    requires k <= |frames| && forall i :: 0 <= i < k ==> !Ends(id)(frames[i])
    requires k < |frames| ==> Ends(id)(frames[k])
    ensures IndexWhere(Ends(id), frames) == k
  {
  }

  predicate Yields(f: Frame) {
    Stops(f) || NotificationIn(f) != []
  }

  /** What the next notification is, when none is queued. */
  function NextVerdict(frames: seq<Frame>): Result<Option<Notification>, CdpError> {
    var k := IndexWhere(Yields, frames);
    if k == |frames| || frames[k] == Close then Ok(None)
    else if Stops(frames[k]) then Err(StopError(frames[k]))
    else Ok(Some(NotificationIn(frames[k])[0]))
  }

  function AfterNext(frames: seq<Frame>): seq<Frame> {
    var k := IndexWhere(Yields, frames);
    if k < |frames| then frames[k + 1..] else []
  }

  lemma FirstYield(frames: seq<Frame>, k: nat)
    requires k <= |frames| && forall i :: 0 <= i < k ==> !Yields(frames[i])
    requires k < |frames| ==> Yields(frames[k])
    ensures IndexWhere(Yields, frames) == k
  {
  }

  lemma {:induction false} NoBindings(frames: seq<Frame>)
    requires forall i :: 0 <= i < |frames| ==> NotificationIn(frames[i]) == []
    ensures Bindings(frames) == []
  {
    if frames != [] {
      NoBindings(frames[1..]);
    }
  }

  /** The next notification is the first one that arrives before reading stops. */
  lemma NextIsFirst(frames: seq<Frame>)
    ensures Bindings(frames)
         == var next := NextVerdict(frames);
            if next.Ok? && next.value.Some? then [next.value.value] + Bindings(AfterNext(frames)) else []
  {
    var k := IndexWhere(Yields, frames);
    BindingsSplit(frames, k);
    NoBindings(frames[..k]);
    if k < |frames| {
      assert frames[k..][1..] == frames[k + 1..];
      assert Bindings(frames[k..]) == if Stops(frames[k]) then [] else NotificationIn(frames[k]) + Bindings(frames[k + 1..]);
    }
  }

  class CdpNotificationStream {
    var incoming: seq<Frame>
    var pending: seq<Notification>
    var sent: seq<Command>
    var pongs: nat

    /** The notifications this stream still has to hand out. */
    ghost function Remaining(): seq<Notification>
      reads this
    {
      pending + Bindings(incoming)
    }

    constructor (frames: seq<Frame>)
      ensures incoming == frames && pending == [] && sent == [] && pongs == 0
    {
      incoming, pending, sent, pongs := frames, [], [], 0;
    }

    /** One frame is read; it is neither lost nor duplicated. */
    method ReadFrame() returns (frame: Frame)
      requires incoming != []
      modifies this`incoming
      ensures frame == old(incoming)[0] && incoming == old(incoming)[1..]
    {
      frame := incoming[0];
      incoming := incoming[1..];
    }

    method SendCommand(id: nat, name: string) returns (result: Result<(), CdpError>)
      modifies this
      ensures result == Verdict(id, old(incoming))
      ensures result.Ok? ==> Remaining() == old(Remaining())
      ensures incoming == After(id, old(incoming)) && sent == old(sent) + [Command(id, name)]
      ensures pongs == old(pongs) + Pings(old(incoming)[..IndexWhere(Ends(id), old(incoming))])
    {
      sent := sent + [Command(id, name)];
      ghost var frames, queued, k := incoming, pending, 0;
      while incoming != []
        invariant k <= |frames| && incoming == frames[k..] && sent == old(sent) + [Command(id, name)]
        invariant Waited(id, frames, k, queued, pending, pongs - old(pongs))
        decreases |incoming|
      {
        var frame := ReadFrame();
        assert frame == frames[k] && incoming == frames[k + 1..];
        if frame == ReadError {
          FirstEnd(id, frames, k);
          return Err(SocketError);
        }
        if frame == Close {
          FirstEnd(id, frames, k);
          return Err(WebSocketClosed);
        }
        if frame == Ping {
          pongs := pongs + 1;
        } else if frame.TextFrame? {
          var notification := NotificationFromBinding(frame.message);
          if notification.Err? {
            FirstEnd(id, frames, k);
            return Err(notification.error);
          }
          if notification.value.Some? {
            pending := pending + [notification.value.value];
          } else if frame.message.id == Some(id) {
            FirstEnd(id, frames, k);
            Kept(frames, queued, k);
            return if frame.message.failure.Some? then Err(frame.message.failure.value) else Ok(());
          }
        }
        WaitedOn(id, frames, k, queued);
        k := k + 1;
      }
      FirstEnd(id, frames, k);
      result := Err(WebSocketClosed);
    }

    method NextNotification() returns (result: Result<Option<Notification>, CdpError>)
      modifies this`incoming, this`pending, this`pongs
      ensures old(pending) != [] ==>
              incoming == old(incoming) && pongs == old(pongs)
              && result == Ok(Some(old(pending)[0])) && pending == old(pending)[1..]
      ensures old(pending) == [] ==>
              pending == [] && result == NextVerdict(old(incoming)) && incoming == AfterNext(old(incoming))
              && pongs == old(pongs) + Pings(old(incoming)[..IndexWhere(Yields, old(incoming))])
      ensures result.Ok? && result.value.Some? ==> old(Remaining()) == [result.value.value] + Remaining()
      ensures result == Ok(None) || result.Err? ==> old(Remaining()) == []
    {
      if pending != [] {
        result := Ok(Some(pending[0]));
        pending := pending[1..];
      } else {
        NextIsFirst(incoming);
        result := ReadNext();
      }
    }

    /** The loop of `next_notification`, entered with an empty queue. */
    method ReadNext() returns (result: Result<Option<Notification>, CdpError>)
      modifies this`incoming, this`pongs
      ensures result == NextVerdict(old(incoming)) && incoming == AfterNext(old(incoming))
      ensures pongs == old(pongs) + Pings(old(incoming)[..IndexWhere(Yields, old(incoming))])
    {
      ghost var frames, k := incoming, 0;
      while incoming != []
        invariant k <= |frames| && incoming == frames[k..]
        invariant forall i :: 0 <= i < k ==> !Yields(frames[i])
        invariant pongs == old(pongs) + Pings(frames[..k])
        decreases |incoming|
      {
        var frame := ReadFrame();
        assert frame == frames[k] && incoming == frames[k + 1..];
        if frame == ReadError {
          FirstYield(frames, k);
          return Err(SocketError);
        }
        if frame == Close {
          FirstYield(frames, k);
          return Ok(None);
        }
        if frame == Ping {
          pongs := pongs + 1;
        } else if frame.TextFrame? {
          var notification := NotificationFromBinding(frame.message);
          if notification.Err? {
            FirstYield(frames, k);
            return Err(notification.error);
          }
          if notification.value.Some? {
            FirstYield(frames, k);
            return Ok(notification.value);
          }
        }
        PingsStep(frames, k);
        k := k + 1;
      }
      FirstYield(frames, k);
      result := Ok(None);
    }

    /** The handshake: three commands, one after the other; the first failure ends it. */
    static method Connect(hasUrl: bool, frames: seq<Frame>) returns (result: Result<CdpNotificationStream, CdpError>)
      ensures result.Ok? ==> fresh(result.value) && result.value.Remaining() == Bindings(frames)
      ensures result.Ok? ==>
              result.value.sent
              == [Command(1, "Runtime.enable"), Command(2, "Runtime.addBinding"), Command(3, "Runtime.evaluate")]
      ensures result.Ok? <==> hasUrl && Handshake(frames).Ok?
      ensures result.Err? ==> result.error == if hasUrl then Handshake(frames).error else MissingWebSocketUrl
    {
      if !hasUrl {
        return Err(MissingWebSocketUrl);
      }
      var stream := new CdpNotificationStream(frames);
      var answer := stream.SendCommand(1, "Runtime.enable");
      if answer.Err? {
        return Err(answer.error);
      }
      answer := stream.SendCommand(2, "Runtime.addBinding");
      if answer.Err? {
        return Err(answer.error);
      }
      answer := stream.SendCommand(3, "Runtime.evaluate");
      if answer.Err? {
        return Err(answer.error);
      }
      result := Ok(stream);
    }

    /** The forwarder's loop: apply notifications until the stream ends or fails. */
    method Forward() returns (applied: seq<Notification>)
      modifies this
      ensures applied == old(Remaining())
    {
      applied := [];
      ghost var owed := Remaining();
      while true
        invariant applied + Remaining() == owed
        decreases |Remaining()|
      {
        ghost var before := Remaining();
        var next := NextNotification();
        if next.Err? || next.value.None? {
          assert before == [];
          return;
        }
        AppendAssociates(applied, [next.value.value], Remaining());
        applied := applied + [next.value.value];
      }
    }
  }

  lemma QueueStep(frames: seq<Frame>, k: nat)
    requires k < |frames| && forall i :: 0 <= i <= k ==> !Stops(frames[i])
    ensures Bindings(frames[..k + 1]) == Bindings(frames[..k]) + NotificationIn(frames[k])
  {
    BindingsSplit(frames[..k + 1], k);
    assert frames[..k + 1][..k] == frames[..k] && frames[..k + 1][k..] == [frames[k]];
    assert Bindings([frames[k]]) == NotificationIn(frames[k]) + Bindings([]);
  }

  /** `k` frames have been read without an end; their notifications are queued and their pings answered. */
  ghost predicate Waited(id: nat, frames: seq<Frame>, k: nat, queued: seq<Notification>, pending: seq<Notification>, pongs: int)
    requires k <= |frames|
  {
    && (forall i :: 0 <= i < k ==> !Ends(id)(frames[i]))
    && pending == queued + Bindings(frames[..k])
    && pongs == Pings(frames[..k])
  }

  lemma WaitedOn(id: nat, frames: seq<Frame>, k: nat, queued: seq<Notification>)
    requires k < |frames| && forall i :: 0 <= i <= k ==> !Ends(id)(frames[i])
    ensures Waited(id, frames, k + 1, queued, queued + Bindings(frames[..k]) + NotificationIn(frames[k]),
                   Pings(frames[..k]) + if frames[k] == Ping then 1 else 0)
  {
    PingsStep(frames, k);
    QueueStep(frames, k);
    AppendAssociates(queued, Bindings(frames[..k]), NotificationIn(frames[k]));
  }

  lemma Kept(frames: seq<Frame>, queued: seq<Notification>, k: nat)
    requires k < |frames| && forall i :: 0 <= i <= k ==> !Stops(frames[i])
    requires NotificationIn(frames[k]) == []
    ensures queued + Bindings(frames[..k]) + Bindings(frames[k + 1..]) == queued + Bindings(frames)
  {
    BindingsSplit(frames, k + 1);
    QueueStep(frames, k);
    AppendAssociates(queued, Bindings(frames[..k]), Bindings(frames[k + 1..]));
  }

  /** Every notification the socket delivers, during the handshake or later, is applied once, in order. */
  method ForwardConnection(hasUrl: bool, frames: seq<Frame>) returns (connected: bool, applied: seq<Notification>)
    ensures connected <==> hasUrl && Handshake(frames).Ok?
    ensures applied == if connected then Bindings(frames) else []
  {
    var stream := CdpNotificationStream.Connect(hasUrl, frames);
    connected, applied := stream.Ok?, [];
    if stream.Ok? {
      applied := stream.value.Forward();
    }
  }
}
