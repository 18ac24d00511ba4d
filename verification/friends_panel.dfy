/** The non-visual state of the friends panel: the friends and requests lists,
    the "Requests (n)" button text, the open chat windows, and the client
    the panel publishes through. Widget liveness (`winfo_exists`) is the
    `live` field of a chat window, set by the window system. */
module FriendsPanel {
  import opened Optional
  import opened Strings
  import opened Seqs
  import CC = ChatClient

  datatype Friend = Friend(username: string, status: string, game: Option<string>)

  /** A chat window: the friend it talks to, the text of its log, and whether
      the widget still exists. */
  datatype ChatWindow = ChatWindow(friend: string, log: string, live: bool)

  /** The line `add_message` appends for one message. */
  function LogLine(sender: string, content: string): string {
    sender + ": " + content + "\n"
  }

  /** `ChatWindow.add_message`: the log grows by exactly one line at its end. */
  function AddMessage(w: ChatWindow, sender: string, content: string): (r: ChatWindow)
    ensures r.friend == w.friend && r.live == w.live
    ensures w.log <= r.log && r.log[|w.log|..] == LogLine(sender, content)
  {
    w.(log := w.log + LogLine(sender, content))
  }

  datatype Panel = Panel(
    client: CC.Client,
    friends: seq<Friend>,
    requests: seq<string>,
    requestsLabel: string,
    chatWindows: map<string, ChatWindow>)

  /** The text of the requests button for `count` pending requests. */
  function RequestsLabel(count: nat): string {
    "Requests (" + NatToString(count) + ")"
  }

  /** The button text reflects the number of pending requests. */
  predicate LabelMatchesRequests(p: Panel) {
    p.requestsLabel == RequestsLabel(|p.requests|)
  }

  /** A panel as constructed: empty lists, "Requests (0)", no windows. */
  function NewPanel(client: CC.Client): (r: Panel)
    ensures r.client == client
    ensures LabelMatchesRequests(r)
    ensures r.friends == [] && r.requests == [] && r.chatWindows == map[]
  {
    Panel(client, [], [], "Requests (0)", map[])
  }

  /** `update_data`: both lists are replaced wholesale and the button shows
      the new number of requests. */
  function UpdateData(p: Panel, friends: seq<Friend>, requests: seq<string>): (r: Panel)
    ensures r.friends == friends && r.requests == requests
    ensures LabelMatchesRequests(r)
    ensures r.client == p.client && r.chatWindows == p.chatWindows
  {
    p.(friends := friends, requests := requests, requestsLabel := RequestsLabel(|requests|))
  }

  /** One line of the friends list: the status dot's colour, the button text,
      and the friend whose chat the button opens. */
  datatype Row = Row(dotColor: string, text: string, opensChatWith: string)

  function RowOf(f: Friend): (r: Row)
    ensures r.dotColor == "green" || r.dotColor == "gray"
    ensures r.dotColor == "green" <==> f.status == "Online"
    ensures r.opensChatWith == f.username
    ensures f.username <= r.text
    ensures r.text == f.username <==> !Truthy(f.game)
  {
    var text := if Truthy(f.game) then f.username + "\nPlaying " + f.game.value else f.username;
    Row(if f.status == "Online" then "green" else "gray", text, f.username)
  }

  /** The labelling rules of `refresh_list`: green exactly for "Online"; the
      text is the username, extended by a "Playing" line exactly when the
      game is truthy. */
  lemma RowLabelling(f: Friend)
    ensures RowOf(f).dotColor == "green" <==> f.status == "Online"
    ensures RowOf(f).dotColor == "gray" <==> f.status != "Online"
    ensures f.username <= RowOf(f).text
    ensures RowOf(f).text == f.username <==> !Truthy(f.game)
    ensures Truthy(f.game) ==> RowOf(f).text[|f.username|..] == "\nPlaying " + f.game.value
    ensures RowOf(f).opensChatWith == f.username
  {
    if Truthy(f.game) {
      assert |RowOf(f).text| > |f.username|;
    }
  }

  /** `refresh_list`: one row per friend, in list order. */
  function Rows(friends: seq<Friend>): (r: seq<Row>)
    ensures |r| == |friends|
    ensures forall i :: 0 <= i < |friends| ==> r[i] == RowOf(friends[i])
  {
    seq(|friends|, i requires 0 <= i < |friends| => RowOf(friends[i]))
  }

  /** `add_friend`: an empty entry sends nothing; otherwise one friend request
      to the typed name goes out through the client. */
  function AddFriend(p: Panel, entry: string): (r: Panel)
    ensures entry == "" ==> r == p
    ensures entry != "" ==> r == p.(client := CC.SendFriendRequest(p.client, entry))
  {
    if entry != "" then p.(client := CC.SendFriendRequest(p.client, entry)) else p
  }

  /** `show_requests`: no dialog when there are no requests; otherwise one
      row (with an Accept button) per request, in order. */
  function ShowRequests(p: Panel): (r: Option<seq<string>>)
    ensures r.None? <==> p.requests == []
    ensures r.Some? ==> r.value == p.requests
  {
    if p.requests == [] then None else Some(p.requests)
  }

  predicate HasFriend(friends: seq<Friend>, name: string) {
    exists i :: 0 <= i < |friends| && friends[i].username == name
  }

  /** `accept`: tell the requester through the client, add them to the
      friends list unless already there, and drop one occurrence of them
      from the requests, updating the button text. */
  function Accept(p: Panel, requester: string): (r: Panel)
    ensures r.client == CC.AcceptFriendRequest(p.client, requester)
    ensures HasFriend(r.friends, requester)
    ensures p.friends <= r.friends
    ensures HasFriend(p.friends, requester) ==> r.friends == p.friends
    ensures !HasFriend(p.friends, requester) ==> r.friends[|p.friends|..] == [Friend(requester, "Online", None)]
    ensures requester in p.requests ==>
      && multiset(r.requests) == multiset(p.requests) - multiset{requester}
      && (exists i :: 0 <= i < |p.requests| && p.requests[i] == requester && requester !in p.requests[..i]
            && r.requests == p.requests[..i] + p.requests[i + 1..])
      && LabelMatchesRequests(r)
    ensures requester !in p.requests ==> r.requests == p.requests && r.requestsLabel == p.requestsLabel
    ensures r.chatWindows == p.chatWindows
  {
    var client := CC.AcceptFriendRequest(p.client, requester);
    var friends :=
      if HasFriend(p.friends, requester) then p.friends
      else p.friends + [Friend(requester, "Online", None)];
    assert friends[|friends| - 1].username == requester || HasFriend(p.friends, requester);
    if requester in p.requests then
      var requests := RemoveFirst(p.requests, requester);
      p.(client := client, friends := friends, requests := requests, requestsLabel := RequestsLabel(|requests|))
    else
      p.(client := client, friends := friends)
  }

  /** After accepting someone new, the refreshed list keeps every earlier row
      and ends with a green row, without a game line, that opens the new
      friend's chat. */
  lemma AcceptAddsOnlineRow(p: Panel, requester: string)
    requires !HasFriend(p.friends, requester)
    ensures var rows := Rows(Accept(p, requester).friends);
      && |rows| == |p.friends| + 1
      && rows[..|p.friends|] == Rows(p.friends)
      && rows[|p.friends|] == Row("green", requester, requester)
  {
    var friends := Accept(p, requester).friends;
    assert friends == p.friends + [Friend(requester, "Online", None)];
    assert friends[|p.friends|] == Friend(requester, "Online", None);
  }

  /** Pressing Accept on each of `reqs` in turn. */
  function AcceptEach(p: Panel, reqs: seq<string>): Panel
    decreases |reqs|
  {
    if reqs == [] then p else AcceptEach(Accept(p, reqs[0]), reqs[1..])
  }

  /** Accepting every pending request, in any order, empties the requests
      and leaves the button at "Requests (0)". */
  lemma {:induction false} AcceptEachEmpties(p: Panel, reqs: seq<string>)
    requires multiset(p.requests) == multiset(reqs)
    ensures AcceptEach(p, reqs).requests == []
    ensures reqs != [] ==> AcceptEach(p, reqs).requestsLabel == RequestsLabel(0)
    decreases |reqs|
  {
    if reqs == [] {
      assert |p.requests| == |multiset(p.requests)| == 0;
    } else {
      assert reqs[0] in multiset(reqs);
      assert reqs[0] in p.requests;
      var next := Accept(p, reqs[0]);
      assert reqs == [reqs[0]] + reqs[1..];
      assert multiset(next.requests) == multiset(reqs[1..]);
      AcceptEachEmpties(next, reqs[1..]);
      if reqs[1..] == [] {
        assert next.requests == [] by {
          assert |next.requests| == |multiset(next.requests)| == 0;
        }
      }
    }
  }

  /** Accepting everything the requests dialog lists leaves nothing for the
      dialog to show. */
  lemma AcceptingAllShownClearsRequests(p: Panel)
    requires ShowRequests(p).Some?
    ensures ShowRequests(AcceptEach(p, ShowRequests(p).value)).None?
    ensures AcceptEach(p, ShowRequests(p).value).requestsLabel == "Requests (0)"
  {
    AcceptEachEmpties(p, p.requests);
    assert NatToString(0) == "0";
  }

  /** No two friends share a username. */
  predicate UniqueFriendNames(friends: seq<Friend>) {
    forall i, j :: 0 <= i < j < |friends| ==> friends[i].username != friends[j].username
  }

  /** Accepting never creates a duplicate friend, and accepting the same
      requester again leaves the friends list as it is. */
  lemma AcceptNoDuplicateFriend(p: Panel, requester: string)
    requires UniqueFriendNames(p.friends)
    ensures UniqueFriendNames(Accept(p, requester).friends)
    ensures Accept(Accept(p, requester), requester).friends == Accept(p, requester).friends
  {
  }

  /** A live window exists for `friend`. */
  predicate HasLiveWindow(p: Panel, friend: string) {
    friend in p.chatWindows && p.chatWindows[friend].live
  }

  /** `open_chat`: a live window is only focused; otherwise a new, empty
      window replaces whatever was stored for the friend. */
  function OpenChat(p: Panel, friend: string): (r: Panel)
    ensures HasLiveWindow(r, friend)
    ensures HasLiveWindow(p, friend) ==> r == p
    ensures !HasLiveWindow(p, friend) ==> r.chatWindows[friend] == ChatWindow(friend, "", true)
    ensures r == p.(chatWindows := r.chatWindows)
    ensures r.chatWindows.Keys == p.chatWindows.Keys + {friend}
    ensures forall g :: g in p.chatWindows && g != friend ==> r.chatWindows[g] == p.chatWindows[g]
  {
    if HasLiveWindow(p, friend) then p
    else p.(chatWindows := p.chatWindows[friend := ChatWindow(friend, "", true)])
  }

  /** Opening a chat twice is opening it once: a live window is never
      replaced, so its log survives. */
  lemma OpenChatIdempotent(p: Panel, friend: string)
    ensures OpenChat(OpenChat(p, friend), friend) == OpenChat(p, friend)
  {
  }

  /** `receive_msg`: make sure a live window for the sender exists, then
      append the message to its log. */
  function ReceiveMsg(p: Panel, sender: string, content: string): (r: Panel)
    ensures HasLiveWindow(r, sender)
    ensures var log := r.chatWindows[sender].log;
      |log| >= |LogLine(sender, content)| && log[|log| - |LogLine(sender, content)|..] == LogLine(sender, content)
    ensures HasLiveWindow(p, sender) ==> r.chatWindows[sender].log == p.chatWindows[sender].log + LogLine(sender, content)
    ensures !HasLiveWindow(p, sender) ==> r.chatWindows[sender].log == LogLine(sender, content)
    ensures r.chatWindows[sender].friend == (if HasLiveWindow(p, sender) then p.chatWindows[sender].friend else sender)
    ensures r == p.(chatWindows := r.chatWindows)
    ensures r.chatWindows.Keys == p.chatWindows.Keys + {sender}
    ensures forall g :: g in p.chatWindows && g != sender ==> r.chatWindows[g] == p.chatWindows[g]
  {
    var ready := if !HasLiveWindow(p, sender) then OpenChat(p, sender) else p;
    var w := AddMessage(ready.chatWindows[sender], sender, content);
    ready.(chatWindows := ready.chatWindows[sender := w])
  }

  /** `ChatWindow.send_msg` on the window stored under `key`: an empty entry
      does nothing; otherwise the message goes to the window's friend and is
      logged as sent by "Me". */
  function SendFromChat(p: Panel, key: string, entry: string): (r: Panel)
    requires key in p.chatWindows
    ensures entry == "" ==> r == p
    ensures entry != "" ==> r.client == CC.SendMessage(p.client, p.chatWindows[key].friend, entry)
    ensures entry != "" ==> key in r.chatWindows && r.chatWindows[key].log == p.chatWindows[key].log + LogLine("Me", entry)
    ensures entry != "" ==> r.chatWindows[key].friend == p.chatWindows[key].friend && r.chatWindows[key].live == p.chatWindows[key].live
    ensures r.friends == p.friends && r.requests == p.requests && r.requestsLabel == p.requestsLabel
    ensures r.chatWindows.Keys == p.chatWindows.Keys
    ensures forall g :: g in p.chatWindows && g != key ==> r.chatWindows[g] == p.chatWindows[g]
  {
    if entry == "" then p
    else
      var w := p.chatWindows[key];
      p.(client := CC.SendMessage(p.client, w.friend, entry),
         chatWindows := p.chatWindows[key := AddMessage(w, "Me", entry)])
  }

  /** The panel's operations, for reasoning about whole sessions. */
  datatype Op =
    | UpdateDataOp(friends: seq<Friend>, requests: seq<string>)
    | AddFriendOp(entry: string)
    | AcceptOp(requester: string)
    | OpenChatOp(friend: string)
    | ReceiveMsgOp(sender: string, content: string)
    | SendFromChatOp(key: string, entry: string)

  function Step(p: Panel, op: Op): Panel {
    match op
    case UpdateDataOp(friends, requests) => UpdateData(p, friends, requests)
    case AddFriendOp(entry) => AddFriend(p, entry)
    case AcceptOp(requester) => Accept(p, requester)
    case OpenChatOp(friend) => OpenChat(p, friend)
    case ReceiveMsgOp(sender, content) => ReceiveMsg(p, sender, content)
    case SendFromChatOp(key, entry) => if key in p.chatWindows then SendFromChat(p, key, entry) else p
  }

  function Session(p: Panel, ops: seq<Op>): Panel
    decreases |ops|
  {
    if ops == [] then p else Session(Step(p, ops[0]), ops[1..])
  }

  /** From construction on, the requests button always shows the current
      number of pending requests, whatever the user and the network do. */
  lemma {:induction false} SessionKeepsLabel(p: Panel, ops: seq<Op>)
    requires LabelMatchesRequests(p)
    ensures LabelMatchesRequests(Session(p, ops))
    decreases |ops|
  {
    if ops != [] {
      SessionKeepsLabel(Step(p, ops[0]), ops[1..]);
    }
  }

  /** Every chat window is stored under the name of the friend it talks
      to, so a reply typed into it goes back to that friend. */
  predicate WindowsAddressed(p: Panel) {
    forall k :: k in p.chatWindows ==> p.chatWindows[k].friend == k
  }

  lemma StepKeepsWindowsAddressed(p: Panel, op: Op)
    requires WindowsAddressed(p)
    ensures WindowsAddressed(Step(p, op))
  {
    var r := Step(p, op);
    match op
    case UpdateDataOp(_, _) =>
    case AddFriendOp(_) =>
    case AcceptOp(_) =>
    case OpenChatOp(friend) =>
      WindowAddressedAfterChange(p, r, friend);
    case ReceiveMsgOp(sender, _) =>
      WindowAddressedAfterChange(p, r, sender);
    case SendFromChatOp(key, _) =>
      if key in p.chatWindows {
        WindowAddressedAfterChange(p, r, key);
      }
  }

  /** Changing or adding only the window under `name`, and addressing it to
      `name`, keeps every window addressed. */
  lemma WindowAddressedAfterChange(p: Panel, r: Panel, name: string)
    requires WindowsAddressed(p)
    requires r.chatWindows.Keys <= p.chatWindows.Keys + {name}
    requires forall g :: g in p.chatWindows && g != name ==> g in r.chatWindows && r.chatWindows[g] == p.chatWindows[g]
    requires name in r.chatWindows && r.chatWindows[name].friend == name
    ensures WindowsAddressed(r)
  {
  }

  /** Over any session the windows stay addressed to their keys. */
  lemma {:induction false} SessionKeepsWindowsAddressed(p: Panel, ops: seq<Op>)
    requires WindowsAddressed(p)
    ensures WindowsAddressed(Session(p, ops))
    decreases |ops|
  {
    if ops != [] {
      StepKeepsWindowsAddressed(p, ops[0]);
      SessionKeepsWindowsAddressed(Step(p, ops[0]), ops[1..]);
    }
  }

  /** Answering in the window an incoming message opened sends the reply to
      the message's sender. */
  lemma ReplyReachesSender(p: Panel, sender: string, content: string, entry: string)
    requires WindowsAddressed(p)
    requires entry != ""
    ensures var q := ReceiveMsg(p, sender, content);
      SendFromChat(q, sender, entry).client == CC.SendMessage(p.client, sender, entry)
  {
  }

  /** Sessions that start from a fresh panel keep the label right. */
  lemma FreshSessionKeepsLabel(client: CC.Client, ops: seq<Op>)
    ensures LabelMatchesRequests(Session(NewPanel(client), ops))
  {
    SessionKeepsLabel(NewPanel(client), ops);
  }
}
