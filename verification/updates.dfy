/** The inbound chat-platform update and `extractMessage` (api/tg-webhook.js),
    with the actor label and message text the handler derives from the
    extracted message. A message, callback message or user that is absent,
    `null` or otherwise falsy is `None`; a string field is `None` when absent or
    `null`, and `Truthy` also treats the empty string as absent, as `||` and
    `filter(Boolean)` do. A chat id is `None` only when absent or `null`: `?.`
    keeps a falsy `0`. */
module Updates {
  import opened Wrappers
  import opened Strings

  datatype User = User(username: Option<string>, firstName: Option<string>, lastName: Option<string>)

  datatype Chat = Chat(id: Option<int>)

  datatype Message = Message(text: Option<string>, caption: Option<string>, from: Option<User>, chat: Option<Chat>)

  /** A button press: `data` is the button's payload, `message` the message the button was on. */
  datatype CallbackQuery = CallbackQuery(data: Option<string>, from: Option<User>, message: Option<Message>)

  datatype Update = Update(
    message: Option<Message>,
    editedMessage: Option<Message>,
    channelPost: Option<Message>,
    editedChannelPost: Option<Message>,
    callbackQuery: Option<CallbackQuery>)

  /** A string field that JavaScript's `||` and `filter(Boolean)` keep: present and non-empty. */
  predicate Truthy(s: Option<string>)
  {
    s.Some? && s.value != ""
  }

  /** The chat of a message, absent when the message has none. */
  function ChatOf(m: Option<Message>): Option<Chat>
  {
    if m.Some? then m.value.chat else None
  }

  /** The message-like value built from a button press: its text is the payload,
      its sender the presser, its chat that of the message carrying the button. */
  function FromCallback(q: CallbackQuery): Message
  {
    Message(q.data, None, q.from, ChatOf(q.message))
  }

  /** The five variants an update may carry, in the order `extractMessage` tries them. */
  function Candidates(u: Update): (c: seq<Option<Message>>)
    ensures |c| == 5
  {
    [u.message, u.editedMessage, u.channelPost, u.editedChannelPost,
     if u.callbackQuery.Some? then Some(FromCallback(u.callbackQuery.value)) else None]
  }

  /** The first present entry of `c`, or `None` when there is none. */
  function FirstPresent(c: seq<Option<Message>>): (r: Option<Message>)
    ensures r.None? <==> forall k | 0 <= k < |c| :: c[k].None?
    ensures r.Some? ==> exists k | 0 <= k < |c| :: c[k] == r && forall j | 0 <= j < k :: c[j].None?
  {
    if c == [] then None
    else if c[0].Some? then c[0]
    else
      var r := FirstPresent(c[1..]);
      assert forall k | 0 < k < |c| :: c[k] == c[1..][k - 1];
      r
  }

  /** `extractMessage(update)`: the direct message, else the edited message, else the
      channel post, else the edited channel post, else a message synthesised from a
      button press; `None` (the source's `null`) when the update carries none of them. */
  function ExtractMessage(u: Update): (r: Option<Message>)
    ensures r.None? <==>
      u.message.None? && u.editedMessage.None? && u.channelPost.None? &&
      u.editedChannelPost.None? && u.callbackQuery.None?
  {
    if u.message.Some? then u.message
    else if u.editedMessage.Some? then u.editedMessage
    else if u.channelPost.Some? then u.channelPost
    else if u.editedChannelPost.Some? then u.editedChannelPost
    else if u.callbackQuery.Some? then Some(FromCallback(u.callbackQuery.value))
    else None
  }

  /** `extractMessage` returns the first variant present, in the fixed priority order. */
  lemma ExtractMessageIsFirstPresent(u: Update)
    ensures ExtractMessage(u) == FirstPresent(Candidates(u))
  {
    var c0 := Candidates(u);
    var c1, c2, c3, c4 := c0[1..], c0[2..], c0[3..], c0[4..];
    assert c1[1..] == c2 && c2[1..] == c3 && c3[1..] == c4 && c4[1..] == [];
    assert FirstPresent(c0) == if c0[0].Some? then c0[0] else FirstPresent(c1);
    assert FirstPresent(c1) == if c1[0].Some? then c1[0] else FirstPresent(c2);
    assert FirstPresent(c2) == if c2[0].Some? then c2[0] else FirstPresent(c3);
    assert FirstPresent(c3) == if c3[0].Some? then c3[0] else FirstPresent(c4);
    assert FirstPresent(c4) == if c4[0].Some? then c4[0] else FirstPresent([]);
  }

  /** A button press on its own yields a message whose text is the button's payload,
      sent by the presser, in the chat of the message carrying the button (if any). */
  lemma ExtractMessageCallback(u: Update, q: CallbackQuery)
    requires u == Update(None, None, None, None, Some(q))
    ensures ExtractMessage(u) == Some(Message(q.data, None, q.from, ChatOf(q.message)))
  {
  }

  /** `a.join(' ')` for the JavaScript array `a`. */
  function JoinWithSpace(a: seq<string>): (r: string)
    ensures (forall k | 0 <= k < |a| :: a[k] != "") && a != [] ==> r != ""
  {
    if a == [] then ""
    else if |a| == 1 then a[0]
    else a[0] + " " + JoinWithSpace(a[1..])
  }

  /** `[from?.first_name, from?.last_name].filter(Boolean)`: the names that are present. */
  function GivenNames(from: Option<User>): (names: seq<string>)
    ensures forall k | 0 <= k < |names| :: names[k] != ""
  {
    if from.None? then []
    else
      (if Truthy(from.value.firstName) then [from.value.firstName.value] else []) +
      (if Truthy(from.value.lastName) then [from.value.lastName.value] else [])
  }

  predicate HasUsername(from: Option<User>)
  {
    from.Some? && Truthy(from.value.username)
  }

  /** The sender's display label: `@` and the username when there is one, else the
      present first and last names joined by one space, else `unknown`. */
  function ActorLabel(from: Option<User>): (actor: string)
    ensures actor != ""
    ensures HasUsername(from) ==> actor == "@" + from.value.username.value
    ensures !HasUsername(from) && GivenNames(from) == [] ==> actor == "unknown"
  {
    if HasUsername(from) then "@" + from.value.username.value
    else
      var joined := JoinWithSpace(GivenNames(from));
      if joined == "" then "unknown" else joined
  }

  /** Without a username the label is built from the names that are present. */
  lemma ActorLabelFromNames(from: User)
    requires !Truthy(from.username)
    ensures Truthy(from.firstName) && Truthy(from.lastName) ==>
      ActorLabel(Some(from)) == from.firstName.value + " " + from.lastName.value
    ensures Truthy(from.firstName) && !Truthy(from.lastName) ==>
      ActorLabel(Some(from)) == from.firstName.value
    ensures !Truthy(from.firstName) && Truthy(from.lastName) ==>
      ActorLabel(Some(from)) == from.lastName.value
    ensures !Truthy(from.firstName) && !Truthy(from.lastName) ==>
      ActorLabel(Some(from)) == "unknown"
  {
    var names := GivenNames(Some(from));
    if Truthy(from.firstName) && Truthy(from.lastName) {
      assert names == [from.firstName.value, from.lastName.value];
      assert names[1..] == [from.lastName.value];
      assert JoinWithSpace(names[1..]) == from.lastName.value;
    }
  }

  /** `(msg.text || msg.caption || '').trim()`: the text, else the caption, else empty,
      with whitespace removed from both ends. */
  function MessageText(m: Message): (t: string)
    ensures IsTrimmed(t)
    ensures Truthy(m.text) ==> t == Trim(m.text.value)
    ensures !Truthy(m.text) && Truthy(m.caption) ==> t == Trim(m.caption.value)
    ensures !Truthy(m.text) && !Truthy(m.caption) ==> t == ""
  {
    var raw := if Truthy(m.text) then m.text.value
               else if Truthy(m.caption) then m.caption.value
               else "";
    Trim(raw)
  }

  /** `msg.chat?.id`: the originating chat, absent when the message names none. */
  function ChatId(m: Message): Option<int>
  {
    if m.chat.Some? then m.chat.value.id else None
  }

  /** A button press is logged with the id of the chat of the message that carried the
      button, and with none when that message, or its chat, is absent. */
  lemma CallbackChatId(u: Update, q: CallbackQuery)
    requires u == Update(None, None, None, None, Some(q))
    ensures ExtractMessage(u).Some?
    ensures q.message.Some? && q.message.value.chat.Some? ==>
      ChatId(ExtractMessage(u).value) == q.message.value.chat.value.id
    ensures q.message.None? || q.message.value.chat.None? ==>
      ChatId(ExtractMessage(u).value).None?
  {
    ExtractMessageCallback(u, q);
  }
}
