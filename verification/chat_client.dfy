/** The peer chat client: wire envelopes, topic naming, and publishing gated
    on the `connected` flag. Publishing is an append to an outbox; the MQTT
    transport and the broker are outside the model. */
module ChatClient {
  import opened Optional
  import Seqs

  const BaseTopic: string := "launcher/chat"
  const GlobalTopic: string := BaseTopic + "/global"

  /** Python's f-string rendering of a possibly-`None` name. */
  function NameText(name: Option<string>): string {
    name.GetOr("None")
  }

  /** The personal topic of a user, `launcher/chat/<name>`. */
  function PersonalTopic(name: string): (r: string)
    ensures BaseTopic + "/" <= r
    ensures |r| == |BaseTopic| + 1 + |name| && r[|BaseTopic| + 1..] == name
  {
    BaseTopic + "/" + name
  }

  /** Different names never share a personal topic. */
  lemma PersonalTopicInjective(a: string, b: string)
    requires PersonalTopic(a) == PersonalTopic(b)
    ensures a == b
  {
    assert a == PersonalTopic(a)[|BaseTopic| + 1..];
  }

  /** The one name whose personal topic is the broadcast topic: a user called
      "global" receives every presence announcement privately. */
  lemma PersonalTopicIsGlobalIff(name: string)
    ensures PersonalTopic(name) == GlobalTopic <==> name == "global"
  {
    if PersonalTopic(name) == GlobalTopic {
      PersonalTopicInjective(name, "global");
    }
  }

  /** The JSON values an envelope field can hold. */
  datatype Json = JNull | JString(s: string)

  function JsonOfName(name: Option<string>): Json {
    match name
    case Some(s) => JString(s)
    case None => JNull
  }

  /** The four kinds of envelope the client builds. */
  datatype Envelope =
    | ChatMessage(sender: Option<string>, content: string)
    | Presence(user: Option<string>, status: string, game: Option<string>)
    | NewRequest(sender: Option<string>)
    | RequestAccepted(sender: Option<string>)

  /** The JSON object published for an envelope. */
  function Wire(e: Envelope): (r: map<string, Json>)
    ensures "type" in r
    ensures r["type"] == JString("presence") <==> e.Presence?
    ensures "from" in r <==> !e.Presence?
    ensures "content" in r <==> e.ChatMessage?
    ensures "username" in r && "status" in r && "game" in r <==> e.Presence?
    ensures e.ChatMessage? ==>
      && r.Keys == {"type", "from", "content"}
      && r["type"] == JString("message") && r["from"] == JsonOfName(e.sender) && r["content"] == JString(e.content)
    ensures e.Presence? ==>
      && r.Keys == {"type", "username", "status", "game"}
      && r["type"] == JString("presence") && r["username"] == JsonOfName(e.user)
      && r["status"] == JString(e.status) && r["game"] == JsonOfName(e.game)
    ensures e.NewRequest? ==>
      && r.Keys == {"type", "from"}
      && r["type"] == JString("new_request") && r["from"] == JsonOfName(e.sender)
    ensures e.RequestAccepted? ==>
      && r.Keys == {"type", "from"}
      && r["type"] == JString("request_accepted") && r["from"] == JsonOfName(e.sender)
  {
    match e
    case ChatMessage(from, content) =>
      map["type" := JString("message"), "from" := JsonOfName(from), "content" := JString(content)]
    case Presence(user, status, game) =>
      map["type" := JString("presence"), "username" := JsonOfName(user),
          "status" := JString(status), "game" := JsonOfName(game)]
    case NewRequest(from) =>
      map["type" := JString("new_request"), "from" := JsonOfName(from)]
    case RequestAccepted(from) =>
      map["type" := JString("request_accepted"), "from" := JsonOfName(from)]
  }

  /** A receiver can tell the kind of envelope from its `type` tag alone. */
  lemma TypeDecidesKind(a: Envelope, b: Envelope)
    ensures Wire(a)["type"] == Wire(b)["type"] <==>
      a.ChatMessage? == b.ChatMessage? && a.Presence? == b.Presence? && a.NewRequest? == b.NewRequest?
  {
  }

  /** The wire object carries a `type` tag from the four in use, and the tag
      together with the other fields determines the envelope: no two
      envelopes share a wire form. */
  lemma WireDeterminesEnvelope(a: Envelope, b: Envelope)
    ensures "type" in Wire(a)
    ensures Wire(a)["type"] in {JString("message"), JString("presence"), JString("new_request"), JString("request_accepted")}
    ensures Wire(a) == Wire(b) ==> a == b
  {
    if Wire(a) == Wire(b) {
      assert Wire(a)["type"] == Wire(b)["type"];
      match a
      case ChatMessage(_, _) =>
        assert Wire(a)["from"] == Wire(b)["from"];
        assert Wire(a)["content"] == Wire(b)["content"];
      case Presence(_, _, _) =>
        assert Wire(a)["username"] == Wire(b)["username"];
        assert Wire(a)["status"] == Wire(b)["status"];
        assert Wire(a)["game"] == Wire(b)["game"];
      case NewRequest(_) =>
        assert Wire(a)["from"] == Wire(b)["from"];
      case RequestAccepted(_) =>
        assert Wire(a)["from"] == Wire(b)["from"];
    }
  }

  datatype Publication = Publication(topic: string, envelope: Envelope)

  /** The client's state: the identity, the `connected` flag, the topics
      subscribed to, and everything published so far, oldest first. */
  datatype Client = Client(
    username: Option<string>,
    connected: bool,
    subscriptions: seq<string>,
    outbox: seq<Publication>)

  /** A freshly constructed client. */
  const Fresh: Client := Client(None, false, [], [])

  /** `after` is `before` with `pubs` appended to the outbox when the client
      is connected, and identical to it otherwise. */
  predicate PublishedIfConnected(before: Client, after: Client, pubs: seq<Publication>) {
    after == before.(outbox := before.outbox + (if before.connected then pubs else []))
  }

  /** `send`: publish only while connected. */
  function Send(c: Client, topic: string, e: Envelope): (r: Client)
    ensures PublishedIfConnected(c, r, [Publication(topic, e)])
  {
    if c.connected then c.(outbox := c.outbox + [Publication(topic, e)]) else c
  }

  /** `send_message`: a chat message from this user to the target's topic. */
  function SendMessage(c: Client, target: string, content: string): (r: Client)
    ensures PublishedIfConnected(c, r, [Publication(PersonalTopic(target), ChatMessage(c.username, content))])
  {
    Send(c, PersonalTopic(target), ChatMessage(c.username, content))
  }

  /** `send_status_update`: an "Online" presence broadcast on the global topic. */
  function SendStatusUpdate(c: Client, game: Option<string>): (r: Client)
    ensures PublishedIfConnected(c, r, [Publication(GlobalTopic, Presence(c.username, "Online", game))])
  {
    Send(c, GlobalTopic, Presence(c.username, "Online", game))
  }

  /** `update_status` only forwards to `send_status_update`. */
  function UpdateStatus(c: Client, game: Option<string>): (r: Client)
    ensures r == SendStatusUpdate(c, game)
  {
    SendStatusUpdate(c, game)
  }

  /** `send_friend_request`: a request envelope to the target's topic. */
  function SendFriendRequest(c: Client, target: string): (r: Client)
    ensures PublishedIfConnected(c, r, [Publication(PersonalTopic(target), NewRequest(c.username))])
  {
    Send(c, PersonalTopic(target), NewRequest(c.username))
  }

  /** `accept_friend_request`: first the acceptance to the requester, then a
      presence with no game on the global topic. */
  function AcceptFriendRequest(c: Client, requester: string): (r: Client)
    ensures PublishedIfConnected(c, r, [
      Publication(PersonalTopic(requester), RequestAccepted(c.username)),
      Publication(GlobalTopic, Presence(c.username, "Online", None))])
  {
    SendStatusUpdate(Send(c, PersonalTopic(requester), RequestAccepted(c.username)), None)
  }

  datatype ConnectResult = ConnectResult(client: Client, ok: bool)

  /** `connect(username)`. `transportOk` says whether the broker connection
      and the receive loop started without raising. The name is recorded
      even when the connection fails. */
  function Connect(c: Client, username: string, transportOk: bool): (r: ConnectResult)
    ensures r.ok == transportOk
    ensures r.client.username == Some(username)
    ensures r.ok ==> r.client.connected
    ensures r.ok ==> r.client.subscriptions == c.subscriptions
    ensures r.ok ==> r.client.outbox == c.outbox + [Publication(GlobalTopic, Presence(Some(username), "Online", None))]
    ensures !r.ok ==> r.client == c.(username := Some(username))
  {
    var named := c.(username := Some(username));
    if transportOk then
      ConnectResult(SendStatusUpdate(named.(connected := true), None), true)
    else
      ConnectResult(named, false)
  }

  /** `on_connect`: subscribe to the personal topic, then the global one. */
  function OnConnect(c: Client): (r: Client)
    ensures c.subscriptions <= r.subscriptions
    ensures r.subscriptions[|c.subscriptions|..] == [PersonalTopic(NameText(c.username)), GlobalTopic]
    ensures r == c.(subscriptions := r.subscriptions)
  {
    c.(subscriptions := c.subscriptions + [PersonalTopic(NameText(c.username)), GlobalTopic])
  }

  /** `on_mqtt_message` over a stream of raw frames: each frame is parsed by
      `parse` (JSON decoding, an oracle); a frame that fails to parse is
      dropped, and nothing is delivered when no callback is set. The result
      is what the callback receives, in order. */
  function Deliveries<P>(frames: seq<string>, parse: string -> Option<P>, hasCallback: bool): (r: seq<P>)
    ensures |r| <= |frames|
    ensures !hasCallback ==> r == []
    ensures forall i :: 0 <= i < |r| ==> exists j :: 0 <= j < |frames| && parse(frames[j]) == Some(r[i])
  {
    if frames == [] || !hasCallback then []
    else
      var rest := Deliveries(frames[1..], parse, hasCallback);
      assert forall i :: 0 <= i < |rest| ==> exists j :: 0 <= j < |frames| && parse(frames[j]) == Some(rest[i]) by {
        forall i | 0 <= i < |rest|
          ensures exists j :: 0 <= j < |frames| && parse(frames[j]) == Some(rest[i])
        {
          var j :| 0 <= j < |frames[1..]| && parse(frames[1..][j]) == Some(rest[i]);
          assert frames[1..][j] == frames[j + 1];
        }
      }
      match parse(frames[0])
      case Some(p) => [p] + rest
      case None => rest
  }

  /** Delivery keeps arrival order: delivering two batches in turn is
      delivering their concatenation. */
  lemma {:induction false} DeliveriesConcat<P>(a: seq<string>, b: seq<string>, parse: string -> Option<P>, hasCallback: bool)
    ensures Deliveries(a + b, parse, hasCallback) == Deliveries(a, parse, hasCallback) + Deliveries(b, parse, hasCallback)
    decreases |a|
  {
    if a == [] {
      assert a + b == b;
    } else if hasCallback {
      assert (a + b)[0] == a[0];
      assert (a + b)[1..] == a[1..] + b;
      DeliveriesStep(a + b, parse);
      DeliveriesStep(a, parse);
      DeliveriesConcat(a[1..], b, parse, hasCallback);
      Seqs.ConcatAssoc(Delivered(a[0], parse), Deliveries(a[1..], parse, true), Deliveries(b, parse, true));
    }
  }

  /** What one frame contributes to a set callback. */
  function Delivered<P>(frame: string, parse: string -> Option<P>): seq<P> {
    match parse(frame)
    case Some(p) => [p]
    case None => []
  }

  /** With a callback set, the first frame's delivery comes before the rest. */
  lemma DeliveriesStep<P>(frames: seq<string>, parse: string -> Option<P>)
    requires frames != []
    ensures Deliveries(frames, parse, true) == Delivered(frames[0], parse) + Deliveries(frames[1..], parse, true)
  {
  }

  /** Every frame that parses reaches a set callback. */
  lemma {:induction false} DeliveriesCount<P>(frames: seq<string>, parse: string -> Option<P>)
    requires forall j :: 0 <= j < |frames| ==> parse(frames[j]).Some?
    ensures |Deliveries(frames, parse, true)| == |frames|
    decreases |frames|
  {
    if frames != [] {
      DeliveriesCount(frames[1..], parse);
    }
  }

  /** The caller-facing operations of the client, for reasoning about runs. */
  datatype Op =
    | ConnectOp(name: string, transportOk: bool)
    | OnConnectOp
    | SendMessageOp(target: string, content: string)
    | UpdateStatusOp(game: Option<string>)
    | SendFriendRequestOp(target: string)
    | AcceptFriendRequestOp(requester: string)

  function Apply(c: Client, op: Op): Client {
    match op
    case ConnectOp(name, ok) => Connect(c, name, ok).client
    case OnConnectOp => OnConnect(c)
    case SendMessageOp(target, content) => SendMessage(c, target, content)
    case UpdateStatusOp(game) => UpdateStatus(c, game)
    case SendFriendRequestOp(target) => SendFriendRequest(c, target)
    case AcceptFriendRequestOp(requester) => AcceptFriendRequest(c, requester)
  }

  function Run(c: Client, ops: seq<Op>): Client
    decreases |ops|
  {
    if ops == [] then c else Run(Apply(c, ops[0]), ops[1..])
  }

  /** Every presence in the outbox announces "Online" on the global topic. */
  predicate PresenceOnlineAndGlobal(outbox: seq<Publication>) {
    forall i :: 0 <= i < |outbox| && outbox[i].envelope.Presence? ==>
      outbox[i].envelope.status == "Online" && outbox[i].topic == GlobalTopic
  }

  /** Whatever the client is asked to do, it never announces a status other
      than "Online", and presence only ever goes to the global topic. */
  lemma {:induction false} RunKeepsPresenceOnline(c: Client, ops: seq<Op>)
    requires PresenceOnlineAndGlobal(c.outbox)
    ensures PresenceOnlineAndGlobal(Run(c, ops).outbox)
    decreases |ops|
  {
    if ops != [] {
      var next := Apply(c, ops[0]);
      assert PresenceOnlineAndGlobal(next.outbox);
      RunKeepsPresenceOnline(next, ops[1..]);
    }
  }

  /** Until a connection succeeds, nothing is ever published. */
  lemma {:induction false} DisconnectedPublishesNothing(c: Client, ops: seq<Op>)
    requires !c.connected
    requires forall i :: 0 <= i < |ops| ==> !(ops[i].ConnectOp? && ops[i].transportOk)
    ensures Run(c, ops).outbox == c.outbox
    ensures !Run(c, ops).connected
    decreases |ops|
  {
    if ops != [] {
      DisconnectedPublishesNothing(Apply(c, ops[0]), ops[1..]);
    }
  }
}
