/** The tutor client (services/geminiService.ts): the translation of the local
    conversation into the generative API's `contents` list, and the way the
    API's answer becomes the reply text. The API call itself is not modelled;
    its outcome is an `ApiReply` value supplied by the caller. */
module GeminiService {
  import opened Types
  import opened JsString

  /** Wire roles: the API knows only "user" and "model". */
  datatype WireRole = UserRole | ModelRole

  /** A wire part is either an inline image or a text fragment. */
  datatype WirePart =
    | InlineData(mimeType: string, data: string)
    | Text(text: string)

  /** One entry of the request's `contents` list. */
  datatype WireTurn = WireTurn(role: WireRole, parts: seq<WirePart>)

  /** What the API call produced: a response whose `text` may be absent, or
      an error that the client rethrows. */
  datatype ApiReply = Replied(text: Option<string>) | Failed(error: string)

  const ImageMimeType: string := "image/jpeg"

  const NoResponseText: string :=
    "I'm sorry, I couldn't generate a response. Let's try looking at the problem again."

  // ---------------------------------------------------------------------
  // Roles

  /** `m.role === 'assistant' ? 'model' : 'user'`. */
  function ToWireRole(role: Role): (w: WireRole)
    ensures w == ModelRole <==> role == Assistant
    ensures w == UserRole <==> role != Assistant
  {
    if role == Assistant then ModelRole else UserRole
  }

  // ---------------------------------------------------------------------
  // Image payload

  /** `image.split(',')[1] || image`: the piece between the first and the
      second comma, or the whole string when there is no comma or that piece
      is empty. */
  function ImagePayload(image: string): (r: string)
    ensures r == image || (',' in image && ',' !in r && r != "")
  {
    var pieces := Split(image, ',');
    OrElse(if |pieces| > 1 then Some(pieces[1]) else None, image)
  }

  /** Without a comma the whole string is sent. */
  lemma ImagePayloadNoComma(image: string)
    requires ',' !in image
    ensures ImagePayload(image) == image
  {
  }

  /** With a comma, write the string as a comma-free header, the first comma,
      a comma-free piece and whatever follows from the second comma on: the
      payload is that piece, or the whole string when the piece is empty.
      Together with ImagePayloadNoComma this covers every string. */
  lemma ImagePayloadAtFirstComma(header: string, piece: string, rest: string)
    requires ',' !in header && ',' !in piece
    requires rest == [] || rest[0] == ','
    ensures ImagePayload(header + [','] + piece + rest)
         == if piece != "" then piece else header + [','] + piece + rest
  {
    var image := header + [','] + piece + rest;
    assert image == header + [','] + (piece + rest);
    SplitFirst(header, ',', piece + rest);
    if rest == [] {
      assert piece + rest == piece;
      SplitNoSeparator(piece, ',');
    } else {
      assert piece + rest == piece + [','] + rest[1..];
      SplitFirst(piece, ',', rest[1..]);
    }
    assert Split(image, ',')[1] == piece;
  }

  /** The data URL of a JPEG upload loses its "data:...;base64," prefix. */
  lemma ImagePayloadDataUrlExample()
    ensures ImagePayload("data:image/jpeg;base64,ABC123") == "ABC123"
  {
    assert "data:image/jpeg;base64,ABC123" == "data:image/jpeg;base64" + [','] + "ABC123" + [];
    ImagePayloadAtFirstComma("data:image/jpeg;base64", "ABC123", []);
  }

  // ---------------------------------------------------------------------
  // Parts and turns

  /** A part with a non-empty image becomes inline JPEG data (any text on it
      is dropped); any other part becomes its text, or "" without one. */
  function ToWirePart(p: MessagePart): (w: WirePart)
    ensures w.InlineData? <==> Truthy(p.image)
    ensures w.InlineData? ==> w.mimeType == ImageMimeType && w.data == ImagePayload(p.image.value)
    ensures w.Text? ==> (w.text == "" <==> !Truthy(p.text))
    ensures w.Text? && Truthy(p.text) ==> w.text == p.text.value
  {
    if Truthy(p.image) then InlineData(ImageMimeType, ImagePayload(p.image.value))
    else Text(OrElse(p.text, ""))
  }

  /** One wire turn per message: the mapped role and one wire part per part,
      in the same order. */
  function ToWireTurn(m: Message): (t: WireTurn)
    ensures t.role == ModelRole <==> m.role == Assistant
    ensures |t.parts| == |m.parts|
    ensures forall k :: 0 <= k < |m.parts| ==> t.parts[k] == ToWirePart(m.parts[k])
  {
    WireTurn(ToWireRole(m.role), seq(|m.parts|, k requires 0 <= k < |m.parts| => ToWirePart(m.parts[k])))
  }

  // ---------------------------------------------------------------------
  // The conversation

  /** `messages.filter(m => m.role !== 'system')`. */
  function NonSystem(ms: seq<Message>): (r: seq<Message>)
    ensures |r| <= |ms|
    ensures forall k :: 0 <= k < |r| ==> r[k].role != System && r[k] in ms
    decreases |ms|
  {
    if ms == [] then []
    else
      var init := ms[..|ms| - 1];
      var last := ms[|ms| - 1];
      var r := NonSystem(init) + (if last.role == System then [] else [last]);
      assert forall k :: 0 <= k < |NonSystem(init)| ==> NonSystem(init)[k] in ms;
      r
  }

  /** The indices of the messages that are sent. */
  function SentIndices(ms: seq<Message>): set<nat> {
    set i: nat | i < |ms| && ms[i].role != System
  }

  /** The request's `contents`: the non-system messages, each as a wire turn. */
  function ToContents(ms: seq<Message>): (r: seq<WireTurn>)
    ensures |r| == |NonSystem(ms)|
    ensures forall k :: 0 <= k < |r| ==> r[k] == ToWireTurn(NonSystem(ms)[k])
  {
    var sent := NonSystem(ms);
    seq(|sent|, k requires 0 <= k < |sent| => ToWireTurn(sent[k]))
  }

  /** Filtering distributes over concatenation. */
  lemma {:induction false} NonSystemAppend(a: seq<Message>, b: seq<Message>)
    ensures NonSystem(a + b) == NonSystem(a) + NonSystem(b)
    decreases |b|
  {
    if b == [] {
      assert a + b == a;
    } else {
      var b' := b[..|b| - 1];
      assert (a + b)[..|a + b| - 1] == a + b';
      NonSystemAppend(a, b');
    }
  }

  /** Serialising distributes over concatenation, so relative order is kept. */
  lemma ToContentsAppend(a: seq<Message>, b: seq<Message>)
    ensures ToContents(a + b) == ToContents(a) + ToContents(b)
  {
    NonSystemAppend(a, b);
  }

  /** Appending one message adds its wire turn at the end, unless it is a
      system message, which adds nothing. */
  lemma ToContentsSnoc(ms: seq<Message>, m: Message)
    ensures ToContents(ms + [m])
         == ToContents(ms) + (if m.role == System then [] else [ToWireTurn(m)])
  {
  }

  /** A two-message conversation without system messages is sent as its
      two wire turns, in order. */
  lemma ToContentsOfTwo(a: Message, b: Message)
    requires a.role != System && b.role != System
    ensures ToContents([a, b]) == [ToWireTurn(a), ToWireTurn(b)]
  {
    ToContentsSnoc([], a);
    ToContentsSnoc([a], b);
    assert [] + [a] == [a] && [a] + [b] == [a, b];
  }

  /** The number of wire turns is the number of non-system messages. */
  lemma {:induction false} ToContentsCount(ms: seq<Message>)
    ensures |ToContents(ms)| == |SentIndices(ms)|
    decreases |ms|
  {
    if ms != [] {
      var init := ms[..|ms| - 1];
      ToContentsCount(init);
      var n := |ms| - 1;
      if ms[n].role == System {
        assert SentIndices(ms) == SentIndices(init);
      } else {
        assert SentIndices(ms) == SentIndices(init) + {n};
      }
    }
  }

  /** Every non-system message `ms[i]` is sent, as its own wire turn, at the
      position given by the number of non-system messages before it (that
      position grows with `i`: see OrderKept). */
  lemma ToContentsAt(ms: seq<Message>, i: nat)
    requires i < |ms| && ms[i].role != System
    ensures |ToContents(ms[..i])| < |ToContents(ms)|
    ensures ToContents(ms)[|ToContents(ms[..i])|] == ToWireTurn(ms[i])
  {
    assert ms == ms[..i] + [ms[i]] + ms[i + 1..];
    ToContentsAppend(ms[..i] + [ms[i]], ms[i + 1..]);
    ToContentsSnoc(ms[..i], ms[i]);
  }

  /** Relative order is kept: of two non-system messages, the earlier one
      is sent at the earlier position. */
  lemma OrderKept(ms: seq<Message>, i: nat, j: nat)
    requires i < j < |ms| && ms[i].role != System && ms[j].role != System
    ensures |ToContents(ms[..i])| < |ToContents(ms[..j])|
  {
    assert ms[..j] == ms[..i] + [ms[i]] + ms[i + 1..j];
    ToContentsAppend(ms[..i] + [ms[i]], ms[i + 1..j]);
    ToContentsSnoc(ms[..i], ms[i]);
  }

  /** With no system messages, the filter keeps every message. */
  lemma {:induction false} NonSystemKeepsAll(ms: seq<Message>)
    requires forall k :: 0 <= k < |ms| ==> ms[k].role != System
    ensures NonSystem(ms) == ms
    decreases |ms|
  {
    if ms != [] {
      var init := ms[..|ms| - 1];
      NonSystemKeepsAll(init);
      assert init + [ms[|ms| - 1]] == ms;
    }
  }

  /** With no system messages, message `k` becomes wire turn `k`. */
  lemma ToContentsWithoutSystem(ms: seq<Message>)
    requires forall k :: 0 <= k < |ms| ==> ms[k].role != System
    ensures |ToContents(ms)| == |ms|
    ensures forall k :: 0 <= k < |ms| ==> ToContents(ms)[k] == ToWireTurn(ms[k])
  {
    NonSystemKeepsAll(ms);
  }

  // ---------------------------------------------------------------------
  // The reply

  /** `response.text || NoResponseText` on success; the API error is passed
      on unchanged on failure. A successful reply is never empty. */
  function TutorResponse(reply: ApiReply): (r: Result<string, string>)
    ensures r.Err? <==> reply.Failed?
    ensures r.Err? ==> r.error == reply.error
    ensures r.Ok? ==> r.value != ""
    ensures r.Ok? && Truthy(reply.text) ==> r.value == reply.text.value
    ensures r.Ok? && !Truthy(reply.text) ==> r.value == NoResponseText
  {
    match reply
    case Replied(text) => Ok(OrElse(text, NoResponseText))
    case Failed(error) => Err(error)
  }
}
