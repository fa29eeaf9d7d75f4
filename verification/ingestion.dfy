/** The exported webhook handler (api/tg-webhook.js): one request against the
    store that holds the append-only `/logs` list and the single `/beacon`
    record. The store is an in-memory object; the remote database behind it,
    the diagnostic writes under `/debug` and the wall clock are not part of this
    model (`now` is a parameter). */
module Ingestion {
  import opened Wrappers
  import opened Strings
  import opened Updates
  import opened Commands

  /** An inbound HTTP request: its method and its body, already parsed; `None` when the
      body was empty or not JSON, or parsed to a falsy value. */
  datatype Request = Request(httpMethod: string, update: Option<Update>)

  /** The HTTP response the handler sends. */
  datatype Ack = Ack(status: int, body: string)

  datatype LogEntry = LogEntry(from: string, body: string, chatId: Option<int>, receivedAt: int)

  datatype LastMessage = LastMessage(from: string, body: string, receivedAt: int)

  datatype Beacon = Beacon(on: bool, expiresAt: int, lastMessage: LastMessage)

  /** What the store holds: the log in arrival order and the beacon, if ever written. */
  datatype StoreState = StoreState(logs: seq<LogEntry>, beacon: Option<Beacon>)

  /** `text || '[non-text]'`: the stored body, never empty. */
  function Body(text: string): (body: string)
    ensures body != ""
    ensures text != "" ==> body == text
    ensures text == "" ==> body == "[non-text]"
  {
    if text == "" then "[non-text]" else text
  }

  /** The message a request acts on: a POST whose body parsed to an update from which
      `extractMessage` gets a message. */
  function ActionableMessage(r: Request): (m: Option<Message>)
    ensures m.Some? <==>
      r.httpMethod == "POST" && r.update.Some? &&
      (var u := r.update.value;
       u.message.Some? || u.editedMessage.Some? || u.channelPost.Some? ||
       u.editedChannelPost.Some? || u.callbackQuery.Some?)
    ensures m.Some? && r.update.value.message.Some? ==> m == r.update.value.message
  {
    if r.httpMethod == "POST" && r.update.Some? then ExtractMessage(r.update.value) else None
  }

  /** The two values one actionable request writes: a log entry and the new beacon. */
  datatype Writes = Writes(entry: LogEntry, beacon: Beacon)

  /** The log entry and beacon for a message received at `now`: both carry the same
      actor label, body and time; the beacon is on exactly when the text is not `/off`,
      and then expires in the future, otherwise it expires now. */
  function WritesFor(m: Message, now: int, defaultMs: nat): (w: Writes)
    requires defaultMs >= 1000
    ensures w.entry.from == w.beacon.lastMessage.from == ActorLabel(m.from)
    ensures w.entry.body == w.beacon.lastMessage.body == Body(MessageText(m))
    ensures w.entry.receivedAt == w.beacon.lastMessage.receivedAt == now
    ensures w.entry.chatId == ChatId(m)
    ensures w.beacon.on <==> !IsOffCommand(MessageText(m))
    ensures w.beacon.on ==> w.beacon.expiresAt > now
    ensures !w.beacon.on ==> w.beacon.expiresAt == now
  {
    var text := MessageText(m);
    var from := ActorLabel(m.from);
    var decision := Interpret(text, now, defaultMs);
    var body := Body(text);
    Writes(LogEntry(from, body, ChatId(m), now),
           Beacon(decision.on, decision.expiresAt, LastMessage(from, body, now)))
  }

  /** The store after one request: unchanged unless the request is actionable; otherwise
      one entry is appended after the untouched earlier ones and the beacon is overwritten
      with a record that agrees with that entry. */
  function Apply(s: StoreState, r: Request, now: int, defaultMs: nat): (t: StoreState)
    requires defaultMs >= 1000
    ensures r.httpMethod != "POST" || r.update.None? ==> t == s
    ensures ActionableMessage(r).None? <==> t == s
    ensures ActionableMessage(r).Some? ==>
      |t.logs| == |s.logs| + 1 && t.logs[..|s.logs|] == s.logs &&
      t.beacon.Some? && t.beacon.value.lastMessage.from == t.logs[|s.logs|].from &&
      t.beacon.value.lastMessage.body == t.logs[|s.logs|].body &&
      t.beacon.value.lastMessage.receivedAt == t.logs[|s.logs|].receivedAt == now
  {
    match ActionableMessage(r)
    case None => s
    case Some(m) =>
      var w := WritesFor(m, now, defaultMs);
      assert |s.logs + [w.entry]| != |s.logs|;
      StoreState(s.logs + [w.entry], Some(w.beacon))
  }

  /** An actionable request appends exactly the entry `WritesFor` gives and sets the beacon
      it gives, whose fields are the text's interpretation. */
  lemma ApplyActionable(s: StoreState, r: Request, m: Message, now: int, defaultMs: nat)
    requires defaultMs >= 1000 && ActionableMessage(r) == Some(m)
    ensures var text, from := MessageText(m), ActorLabel(m.from);
      var d := Interpret(text, now, defaultMs);
      Apply(s, r, now, defaultMs) == StoreState(
        s.logs + [LogEntry(from, Body(text), ChatId(m), now)],
        Some(Beacon(d.on, d.expiresAt, LastMessage(from, Body(text), now))))
  {
    var w := WritesFor(m, now, defaultMs);
    assert Apply(s, r, now, defaultMs) == StoreState(s.logs + [w.entry], Some(w.beacon));
  }

  /** A request delivered twice is logged twice but leaves one beacon: the one the
      second delivery alone would have written. */
  lemma RepeatedDelivery(s: StoreState, r: Request, now1: int, now2: int, defaultMs: nat)
    requires defaultMs >= 1000 && ActionableMessage(r).Some?
    ensures var t := Apply(Apply(s, r, now1, defaultMs), r, now2, defaultMs);
      |t.logs| == |s.logs| + 2 && t.logs[..|s.logs|] == s.logs &&
      (now1 == now2 ==> t.logs[|s.logs|] == t.logs[|s.logs| + 1]) &&
      t.beacon == Apply(s, r, now2, defaultMs).beacon
  {
    var t1 := Apply(s, r, now1, defaultMs);
    assert t1.logs[..|s.logs|] == s.logs;
    var t := Apply(t1, r, now2, defaultMs);
    assert t.logs[..|t1.logs|] == t1.logs;
    assert t.logs[..|s.logs|] == t1.logs[..|s.logs|];
  }

  /** A POST of `{message: {text: "/on 2m", from: {username: "alice"}, chat: {id: 42}}}`
      logs one entry from `@alice` and turns the beacon on for two minutes. */
  lemma EndToEndExample(s: StoreState, now: int, defaultMs: nat)
    requires defaultMs >= 1000
    ensures var alice := Message(Some("/on 2m"), None, Some(User(Some("alice"), None, None)), Some(Chat(Some(42))));
      var r := Request("POST", Some(Update(Some(alice), None, None, None, None)));
      Apply(s, r, now, defaultMs) == StoreState(
        s.logs + [LogEntry("@alice", "/on 2m", Some(42), now)],
        Some(Beacon(true, now + 120_000, LastMessage("@alice", "/on 2m", now))))
  {
    var alice := Message(Some("/on 2m"), None, Some(User(Some("alice"), None, None)), Some(Chat(Some(42))));
    var r := Request("POST", Some(Update(Some(alice), None, None, None, None)));
    var text := "/on 2m";
    assert ActionableMessage(r) == Some(alice);
    assert MessageText(alice) == text by {
      assert Truthy(alice.text) && alice.text.value == text;
      assert IsTrimmed(text) by { assert text[0] == '/' && text[|text| - 1] == 'm'; }
      TrimKeepsTrimmed(text);
    }
    assert ActorLabel(alice.from) == "@alice" by {
      assert HasUsername(alice.from);
      assert "@" + "alice" == "@alice";
    }
    assert ChatId(alice) == Some(42);
    assert Body(text) == text;
    InterpretOnExample(now, defaultMs);
    ApplyActionable(s, r, alice, now, defaultMs);
  }

  /** One request and the time it reached the handler. */
  datatype Delivery = Delivery(request: Request, now: int)

  /** The store after a sequence of deliveries, handled one after another. */
  function ApplyAll(s: StoreState, ds: seq<Delivery>, defaultMs: nat): StoreState
    requires defaultMs >= 1000
  {
    if ds == [] then s
    else
      var last := ds[|ds| - 1];
      Apply(ApplyAll(s, ds[..|ds| - 1], defaultMs), last.request, last.now, defaultMs)
  }

  /** The log entries the deliveries produce, in arrival order. */
  function Entries(ds: seq<Delivery>, defaultMs: nat): seq<LogEntry>
    requires defaultMs >= 1000
  {
    if ds == [] then []
    else
      var last := ds[|ds| - 1];
      var earlier := Entries(ds[..|ds| - 1], defaultMs);
      match ActionableMessage(last.request)
      case None => earlier
      case Some(m) => earlier + [WritesFor(m, last.now, defaultMs).entry]
  }

  predicate AnyActionable(ds: seq<Delivery>)
  {
    exists k | 0 <= k < |ds| :: ActionableMessage(ds[k].request).Some?
  }

  /** The log is append-only: after any deliveries it is the old log followed by one entry
      per actionable delivery, in arrival order. */
  lemma {:induction false} LogIsAppendOnly(s: StoreState, ds: seq<Delivery>, defaultMs: nat)
    requires defaultMs >= 1000
    ensures ApplyAll(s, ds, defaultMs).logs == s.logs + Entries(ds, defaultMs)
  {
    if ds != [] {
      var init, last := ds[..|ds| - 1], ds[|ds| - 1];
      LogIsAppendOnly(s, init, defaultMs);
      var prev := ApplyAll(s, init, defaultMs);
      assert ApplyAll(s, ds, defaultMs) == Apply(prev, last.request, last.now, defaultMs);
      match ActionableMessage(last.request)
      case None =>
      case Some(m) =>
        var e := WritesFor(m, last.now, defaultMs).entry;
        assert Entries(ds, defaultMs) == Entries(init, defaultMs) + [e];
        assert Apply(prev, last.request, last.now, defaultMs).logs == prev.logs + [e];
        assert s.logs + Entries(init, defaultMs) + [e] == s.logs + (Entries(init, defaultMs) + [e]);
    }
  }

  /** The beacon is overwritten, not accumulated: once any delivery is actionable, the
      beacon no longer depends on what the store held before. */
  lemma {:induction false} BeaconForgetsEarlierState(s1: StoreState, s2: StoreState, ds: seq<Delivery>, defaultMs: nat)
    requires defaultMs >= 1000 && AnyActionable(ds)
    ensures ApplyAll(s1, ds, defaultMs).beacon == ApplyAll(s2, ds, defaultMs).beacon
  {
    var init := ds[..|ds| - 1];
    var last := ds[|ds| - 1];
    if ActionableMessage(last.request).None? {
      var k :| 0 <= k < |ds| && ActionableMessage(ds[k].request).Some?;
      assert init[k] == ds[k];
      BeaconForgetsEarlierState(s1, s2, init, defaultMs);
    }
  }

  /** The store the handler writes to: `/logs` is pushed to, `/beacon` is set. */
  class Store {
    var logs: seq<LogEntry>
    var beacon: Option<Beacon>

    constructor ()
      ensures logs == [] && beacon == None
    {
      logs := [];
      beacon := None;
    }

    function State(): StoreState
      reads this
    {
      StoreState(logs, beacon)
    }

    /** `db.ref('/logs').push(entry)`: appends, leaving earlier entries and the beacon alone. */
    method Push(entry: LogEntry)
      modifies this
      ensures logs == old(logs) + [entry] && beacon == old(beacon)
    {
      logs := logs + [entry];
    }

    /** `db.ref('/beacon').set(b)`: overwrites the beacon, leaving the log alone. */
    method Set(b: Beacon)
      modifies this
      ensures beacon == Some(b) && logs == old(logs)
    {
      beacon := Some(b);
    }

    /** The exported handler: acknowledges every request with `200 ok`; for an actionable
        POST derives the text, the actor label and the duration, then pushes the log entry
        and sets the beacon. */
    method Handle(request: Request, now: int, defaultMs: nat) returns (ack: Ack)
      requires defaultMs >= 1000
      modifies this
      ensures ack == Ack(200, "ok")
      ensures State() == Apply(old(State()), request, now, defaultMs)
    {
      ack := Ack(200, "ok");
      ghost var before := State();
      if request.httpMethod != "POST" || request.update.None? {
        return;
      }
      var msg := ExtractMessage(request.update.value);
      if msg.None? {
        return;
      }
      var m := msg.value;
      var text := MessageText(m);
      var from := ActorLabel(m.from);
      var durationMs := CommandDuration(text, defaultMs);
      var expiresAt := now + durationMs;
      var body := Body(text);
      assert ActionableMessage(request) == Some(m);
      assert Interpret(text, now, defaultMs) == Decision(durationMs > 0, expiresAt);
      ApplyActionable(before, request, m, now, defaultMs);
      Push(LogEntry(from, body, ChatId(m), now));
      Set(Beacon(durationMs > 0, expiresAt, LastMessage(from, body, now)));
    }
  }

  /** A client of the store: the same actionable request handled twice leaves two new
      log entries and the beacon of the second delivery. */
  method DeliverTwice(store: Store, request: Request, now1: int, now2: int, defaultMs: nat)
    requires defaultMs >= 1000 && ActionableMessage(request).Some?
    modifies store
    ensures |store.logs| == |old(store.logs)| + 2
    ensures store.logs[..|old(store.logs)|] == old(store.logs)
    ensures store.beacon == Apply(old(store.State()), request, now2, defaultMs).beacon
  {
    ghost var s := store.State();
    var ack1 := store.Handle(request, now1, defaultMs);
    var ack2 := store.Handle(request, now2, defaultMs);
    RepeatedDelivery(s, request, now1, now2, defaultMs);
  }
}
