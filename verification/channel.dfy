/**
 * The Discord channel, abstracted to the live messages and what each one
 * shows, with failures injected per message: a fetch may fail with 404,
 * 403 or some other error, and an edit may fail.
 */
module Channel {
  import opened Base
  import opened Trains
  import opened Render

  datatype MessageRef = MessageRef(channelId: int, messageId: int)

  /** The classes of HTTP failure the refresh tells apart. */
  datatype HttpError = NotFound | Forbidden | Other

  /** What a message shows. */
  datatype Content =
    | Placeholder(text: string)
    | Rendered(embed: Embed, rows: seq<seq<Button>>)

  datatype Channel = Channel(
    posts: map<MessageRef, Content>,
    nextMessage: int,
    fetchFaults: map<MessageRef, HttpError>,
    editFaults: set<MessageRef>)

  /** Sending: a new message with a fresh id appears with the given content. */
  function Send(ch: Channel, channelId: int, content: Content): (r: (Channel, MessageRef))
    requires forall m | m in ch.posts :: m.messageId < ch.nextMessage
    ensures r.1 == MessageRef(channelId, ch.nextMessage) && r.1 !in ch.posts
    ensures r.0.posts == ch.posts[r.1 := content]
    ensures r.0.fetchFaults == ch.fetchFaults && r.0.editFaults == ch.editFaults
    ensures forall m | m in r.0.posts :: m.messageId < r.0.nextMessage
  {
    var m := MessageRef(channelId, ch.nextMessage);
    (ch.(posts := ch.posts[m := content], nextMessage := ch.nextMessage + 1), m)
  }

  /** `ChannelId::message`: a deleted message is 404; otherwise the injected failure, if any. */
  function Fetch(ch: Channel, m: MessageRef): (r: Outcome<HttpError>)
    ensures m !in ch.posts ==> r == Fail(NotFound)
    ensures r.Pass? <==> m in ch.posts && m !in ch.fetchFaults
  {
    if m !in ch.posts then Fail(NotFound)
    else if m in ch.fetchFaults then Fail(ch.fetchFaults[m])
    else Pass
  }

  predicate EditFails(ch: Channel, m: MessageRef) {
    m !in ch.posts || m in ch.editFaults
  }

  /** `Message::edit` that succeeded: the message now shows `content`, and no other message changes. */
  function Edit(ch: Channel, m: MessageRef, content: Content): (ch': Channel)
    requires !EditFails(ch, m)
    ensures ch'.posts == ch.posts[m := content] && ch'.posts.Keys == ch.posts.Keys
    ensures ch'.nextMessage == ch.nextMessage && ch'.fetchFaults == ch.fetchFaults && ch'.editFaults == ch.editFaults
  {
    ch.(posts := ch.posts[m := content])
  }

  predicate FreshIds(ch: Channel) {
    forall m | m in ch.posts :: m.messageId < ch.nextMessage
  }
}
