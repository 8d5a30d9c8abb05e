/** The concrete `Event` of `aionbot-core` (event.rs): a message made of
    segments, rendered by writing the segment texts one after the other. */
module Events {
  import opened Common

  datatype MessageSegment = MessageSegment(text: string, kind: string)

  /** `From<&str>` and `From<String>` for `MessageSegment`: the text is kept
      and the segment is of kind `"text"`. */
  function SegmentFrom(s: string): (m: MessageSegment)
    ensures m.text == s && m.kind == "text"
  {
    MessageSegment(s, "text")
  }

  datatype Message = Message(entity: Option<string>, segments: seq<MessageSegment>)

  /** `Message::default()`. */
  function DefaultMessage(): Message
  {
    Message(None, [])
  }

  /** The texts of the segments, written one after the other: empty exactly
      when every segment's text is, and at least as long as each of them. */
  function Texts(segments: seq<MessageSegment>): (t: string)
    ensures t == "" <==> forall i | 0 <= i < |segments| :: segments[i].text == ""
    ensures forall i | 0 <= i < |segments| :: |segments[i].text| <= |t|
  {
    if segments == [] then "" else segments[0].text + Texts(segments[1..])
  }

  /** `Display for Message` (`to_string`): the message renders as `""`
      exactly when all its segment texts are empty, and no shorter than any of
      them; the entity is not written. */
  function Render(m: Message): (t: string)
    ensures t == "" <==> forall i | 0 <= i < |m.segments| :: m.segments[i].text == ""
    ensures forall i | 0 <= i < |m.segments| :: |m.segments[i].text| <= |t|
  {
    Texts(m.segments)
  }

  /** `Event`; `variables` stands for the optional JSON value by its text. */
  datatype Event = Event(plainData: Message, userId: string, channelId: string, timestamp: string,
                         eventType: string, variables: Option<string>)

  /** `Event::default()`. */
  function DefaultEvent(): Event
  {
    Event(DefaultMessage(), "", "", "", "", None)
  }

  /** Rendering distributes over concatenation of segment lists. */
  lemma {:induction false} RenderAppend(a: seq<MessageSegment>, b: seq<MessageSegment>)
    ensures Texts(a + b) == Texts(a) + Texts(b)
  {
    if a == [] {
      assert a + b == b;
    } else {
      assert (a + b)[1..] == a[1..] + b;
      RenderAppend(a[1..], b);
    }
  }

  /** The rendering is the texts in order: a message with one more segment
      renders as before followed by that segment's text. */
  lemma RenderSnoc(m: Message, s: MessageSegment)
    ensures Render(Message(m.entity, m.segments + [s])) == Render(m) + s.text
  {
    RenderAppend(m.segments, [s]);
  }

  /** Only the segment texts matter: the entity and the segment kinds do not
      affect the rendering. */
  lemma {:induction false} RenderReadsOnlyTexts(m: Message, m': Message)
    requires |m.segments| == |m'.segments|
    requires forall i | 0 <= i < |m.segments| :: m.segments[i].text == m'.segments[i].text
    ensures Render(m) == Render(m')
    decreases |m.segments|
  {
    if m.segments != [] {
      RenderReadsOnlyTexts(Message(m.entity, m.segments[1..]), Message(m'.entity, m'.segments[1..]));
    }
  }

  /** The default message, and so the default event, renders as `""`; a
      message of one segment made from a string renders as that string. */
  lemma RenderBasics(s: string, entity: Option<string>)
    ensures Render(DefaultMessage()) == "" && Render(DefaultEvent().plainData) == ""
    ensures Render(Message(entity, [SegmentFrom(s)])) == s
  {
    assert [SegmentFrom(s)][1..] == [];
  }
}
