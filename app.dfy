/** The conversation controller (App.tsx): the component's four pieces of
    state, the send path shared by the input box and the two nudge buttons,
    the resolution of the tutor call, and the predicates that enable the
    buttons. Rendering, scrolling and the file reader are not modelled. */
module App {
  import opened Types
  import opened JsString
  import opened GeminiService

  const GreetingText: string :=
    "Hello! I'm Socratica. I'm here to help you master math. Upload a photo of a problem you're working on, or just type it out, and we'll walk through it together. What's on your mind today?"

  const ImagePromptText: string :=
    "I've uploaded an image of a problem. Can you help me with the first step?"

  const SnagText: string :=
    "I'm sorry, I hit a snag while thinking. Could we try that step again?"

  // Written as two literals only so that the verifier can see its first
  // character; the value is the single string of the source.
  const WhyText: string :=
    "Why did we do that? " + "I want to understand the concept behind this step."

  const NextStepText: string :=
    "I'm stuck, can you show me the next step?"

  /** The seed message the conversation starts with. */
  function Greeting(): (m: Message)
    ensures m.role == Assistant && |m.parts| == 1
  {
    Message(Assistant, [MessagePart(Some(GreetingText), None)])
  }

  /** `!s.trim()`: blank means made of white space only, the empty text
      included. */
  predicate IsBlank(s: string)
    ensures IsBlank(s) <==> AllSpace(s)
  {
    TrimEmptyIffAllSpace(s);
    Trim(s) == ""
  }

  /** `customText || inputText`: a nudge's fixed text wins over whatever is
      typed, an absent or empty custom text falls back to the input. */
  function EffectiveText(customText: Option<string>, inputText: string): (text: string)
    ensures Truthy(customText) ==> text == customText.value
    ensures !Truthy(customText) ==> text == inputText
  {
    OrElse(customText, inputText)
  }

  /** The guard of the send path: there is something to send unless the text
      is blank and no image is selected. */
  predicate ShouldSend(text: string, selectedImage: Option<string>) {
    !IsBlank(text) || Truthy(selectedImage)
  }

  /** The send guard lets a send through exactly when the text has a
      character that is not white space or a non-empty image is selected. */
  lemma ShouldSendIff(text: string, selectedImage: Option<string>)
    ensures ShouldSend(text, selectedImage)
        <==> (exists k :: 0 <= k < |text| && !IsSpace(text[k])) || Truthy(selectedImage)
  {
  }

  /** The user turn built by a send: a text part (the default image prompt
      when the text is empty and an image is selected), then the image part
      when an image is selected. */
  function UserMessage(text: string, selectedImage: Option<string>): (m: Message)
    ensures m.role == User
    ensures |m.parts| == if Truthy(selectedImage) then 2 else 1
    ensures m.parts[0].image == None && m.parts[0].text.Some?
    ensures text != "" ==> m.parts[0].text.value == text
    ensures text == "" && Truthy(selectedImage) ==> m.parts[0].text.value == ImagePromptText
    ensures ShouldSend(text, selectedImage) ==> m.parts[0].text.value != ""
    ensures Truthy(selectedImage) ==> m.parts[1] == MessagePart(None, selectedImage)
  {
    var first := MessagePart(Some(OrElse(Some(text), if Truthy(selectedImage) then ImagePromptText else "")), None);
    Message(User, [first] + (if Truthy(selectedImage) then [MessagePart(None, selectedImage)] else []))
  }

  /** A turn of the tutor carrying `text`. */
  function AssistantMessage(text: string): (m: Message)
    ensures m.role == Assistant && m.parts == [MessagePart(Some(text), None)]
  {
    Message(Assistant, [MessagePart(Some(text), None)])
  }

  /** What the controller shows once the call resolves: the tutor's text
      (itself the no-response fallback when the API sent no text), or the
      snag apology when the call failed. Never empty. */
  function ReplyText(reply: ApiReply): (text: string)
    ensures text != ""
    ensures reply.Failed? ==> text == SnagText
    ensures reply.Replied? && Truthy(reply.text) ==> text == reply.text.value
    ensures reply.Replied? && !Truthy(reply.text) ==> text == NoResponseText
  {
    match TutorResponse(reply)
    case Ok(response) => response
    case Err(_) => SnagText
  }

  /** A string that starts with a non-space character is not blank. */
  lemma NotBlankWhenFirstIsNotSpace(s: string)
    requires s != [] && !IsSpace(s[0])
    ensures !IsBlank(s)
  {
  }

  /** A nudge always sends its fixed text, whatever is typed and whether or
      not an image is selected. */
  lemma NudgesAlwaysSend(inputText: string, selectedImage: Option<string>)
    ensures EffectiveText(Some(WhyText), inputText) == WhyText
    ensures EffectiveText(Some(NextStepText), inputText) == NextStepText
    ensures ShouldSend(WhyText, selectedImage) && ShouldSend(NextStepText, selectedImage)
  {
    assert WhyText[0] == 'W';
    assert NextStepText[0] == 'I';
    NotBlankWhenFirstIsNotSpace(WhyText);
    NotBlankWhenFirstIsNotSpace(NextStepText);
  }

  /** The user turn as the tutor client serialises it: a non-empty text
      fragment, then, when an image was selected, its inline JPEG payload. */
  lemma UserMessageOnWire(text: string, selectedImage: Option<string>)
    requires ShouldSend(text, selectedImage)
    ensures ToWireTurn(UserMessage(text, selectedImage)).role == UserRole
    ensures ToWireTurn(UserMessage(text, selectedImage)).parts
         == [Text(if text != "" then text else ImagePromptText)]
          + (if Truthy(selectedImage)
             then [InlineData(ImageMimeType, ImagePayload(selectedImage.value))]
             else [])
  {
  }

  /** The component's state. `pending` counts the requests that have been sent
      and not yet resolved; the source keeps no such counter. */
  class Chat {
    var messages: seq<Message>
    var inputText: string
    var selectedImage: Option<string>
    var isLoading: bool
    ghost var pending: nat

    /** One greeting from the tutor, empty input, no image, not loading. */
    constructor ()
      ensures messages == [Greeting()]
      ensures inputText == "" && selectedImage == None && !isLoading
      ensures pending == 0
    {
      messages := [Greeting()];
      inputText := "";
      selectedImage := None;
      isLoading := false;
      pending := 0;
    }

    /** At most one request is outstanding and the loading flag shows it. The
        buttons keep this; the Enter key does not (see EnterOverlaps). */
    ghost predicate Serial()
      reads this
    {
      pending <= 1 && (isLoading <==> pending == 1)
    }

    /** The two nudge buttons are enabled once the conversation holds at least
        two messages and the loading flag is off. Whatever is typed, each nudge
        passes the send guard. */
    predicate NudgeEnabled()
      reads this
      ensures NudgeEnabled() <==> !isLoading && |messages| >= 2
      ensures ShouldSend(EffectiveText(Some(WhyText), inputText), selectedImage)
      ensures ShouldSend(EffectiveText(Some(NextStepText), inputText), selectedImage)
    {
      NudgesAlwaysSend(inputText, selectedImage);
      !isLoading && |messages| >= 2
    }

    /** The send button is enabled exactly when the loading flag is off and
        the send path's guard passes on the typed input. */
    predicate SendEnabled()
      reads this
      ensures SendEnabled() <==> !isLoading && ShouldSend(EffectiveText(None, inputText), selectedImage)
    {
      !isLoading && (!IsBlank(inputText) || Truthy(selectedImage))
    }

    /** Typing in the input box. */
    method SetInputText(text: string)
      modifies this`inputText
      ensures inputText == text
    {
      inputText := text;
    }

    /** Choosing an image (the data URL the file reader produced) or removing
        the preview (`None`). */
    method SetSelectedImage(image: Option<string>)
      modifies this`selectedImage
      ensures selectedImage == image
    {
      selectedImage := image;
    }

    /** `handleSend(customText)` up to the tutor call. When there is nothing
        to send nothing changes; otherwise the user turn is appended, the
        input and the image are cleared, loading is set and `contents` is the
        request built from the whole history including the new turn. The
        loading flag is not consulted. */
    method HandleSend(customText: Option<string>) returns (sent: bool, contents: seq<WireTurn>)
      modifies this
      ensures var text := EffectiveText(customText, old(inputText));
              sent == ShouldSend(text, old(selectedImage))
      ensures sent ==>
                && messages == old(messages) + [UserMessage(EffectiveText(customText, old(inputText)), old(selectedImage))]
                && inputText == "" && selectedImage == None && isLoading
                && pending == old(pending) + 1
                && contents == ToContents(messages)
      ensures !sent ==>
                && messages == old(messages) && inputText == old(inputText)
                && selectedImage == old(selectedImage) && isLoading == old(isLoading)
                && pending == old(pending) && contents == []
      ensures old(messages) <= messages
    {
      var text := EffectiveText(customText, inputText);
      if IsBlank(text) && !Truthy(selectedImage) {
        return false, [];
      }
      var userMessage := UserMessage(text, selectedImage);
      var history := messages + [userMessage];
      messages := messages + [userMessage];
      inputText := "";
      selectedImage := None;
      isLoading := true;
      pending := pending + 1;
      sent, contents := true, ToContents(history);
    }

    /** The tutor call resolves: exactly one tutor turn is appended (the
        reply, or the snag apology on failure) and loading is cleared. */
    method Resolve(reply: ApiReply)
      requires pending > 0
      modifies this
      ensures messages == old(messages) + [AssistantMessage(ReplyText(reply))]
      ensures !isLoading && pending == old(pending) - 1
      ensures inputText == old(inputText) && selectedImage == old(selectedImage)
      ensures old(messages) <= messages
    {
      var text: string;
      match TutorResponse(reply) {
        case Ok(response) => text := response;
        case Err(_) => text := SnagText;
      }
      messages := messages + [AssistantMessage(text)];
      isLoading := false;
      pending := pending - 1;
    }

    /** `askWhy`: sends the fixed "why" question through the send path; the
        typed text is ignored but still cleared, and a selected image goes
        with it. */
    method AskWhy() returns (sent: bool, contents: seq<WireTurn>)
      modifies this
      ensures sent
      ensures messages == old(messages) + [UserMessage(WhyText, old(selectedImage))]
      ensures inputText == "" && selectedImage == None && isLoading
      ensures pending == old(pending) + 1 && contents == ToContents(messages)
    {
      NudgesAlwaysSend(inputText, selectedImage);
      sent, contents := HandleSend(Some(WhyText));
    }

    /** The "next step" nudge: like AskWhy with its own fixed text. */
    method AskNextStep() returns (sent: bool, contents: seq<WireTurn>)
      modifies this
      ensures sent
      ensures messages == old(messages) + [UserMessage(NextStepText, old(selectedImage))]
      ensures inputText == "" && selectedImage == None && isLoading
      ensures pending == old(pending) + 1 && contents == ToContents(messages)
    {
      NudgesAlwaysSend(inputText, selectedImage);
      sent, contents := HandleSend(Some(NextStepText));
    }

    /** Enter in the input box calls the send path unconditionally. */
    method PressEnter() returns (sent: bool, contents: seq<WireTurn>)
      modifies this
      ensures sent == ShouldSend(old(inputText), old(selectedImage))
      ensures sent ==>
                && messages == old(messages) + [UserMessage(old(inputText), old(selectedImage))]
                && inputText == "" && selectedImage == None && isLoading
                && pending == old(pending) + 1 && contents == ToContents(messages)
      ensures !sent ==> messages == old(messages) && inputText == old(inputText)
                        && selectedImage == old(selectedImage) && isLoading == old(isLoading)
                        && pending == old(pending) && contents == []
    {
      sent, contents := HandleSend(None);
    }

    /** A click on the send button: does nothing while the button is disabled,
        otherwise always sends, and `contents` is the request that goes out. From a state with at most one request
        outstanding and the loading flag showing it, it keeps that so. */
    method ClickSend() returns (sent: bool, contents: seq<WireTurn>)
      modifies this
      ensures old(Serial()) ==> Serial()
      ensures pending == old(pending) + (if sent then 1 else 0)
      ensures sent == old(SendEnabled())
      ensures sent ==> messages == old(messages) + [UserMessage(old(inputText), old(selectedImage))]
                       && inputText == "" && selectedImage == None && isLoading
                       && contents == ToContents(messages)
      ensures !sent ==> messages == old(messages) && inputText == old(inputText)
                        && selectedImage == old(selectedImage) && isLoading == old(isLoading)
                        && contents == []
    {
      sent, contents := false, [];
      if SendEnabled() {
        sent, contents := HandleSend(None);
      }
    }

    /** A click on "Why did we do that?". */
    method ClickWhy() returns (sent: bool, contents: seq<WireTurn>)
      modifies this
      ensures old(Serial()) ==> Serial()
      ensures pending == old(pending) + (if sent then 1 else 0)
      ensures sent == old(NudgeEnabled())
      ensures sent ==> messages == old(messages) + [UserMessage(WhyText, old(selectedImage))]
                       && inputText == "" && selectedImage == None && isLoading
                       && contents == ToContents(messages)
      ensures !sent ==> messages == old(messages) && inputText == old(inputText)
                        && selectedImage == old(selectedImage) && isLoading == old(isLoading)
                        && contents == []
    {
      sent, contents := false, [];
      if NudgeEnabled() {
        sent, contents := AskWhy();
      }
    }

    /** A click on "Next step, please". */
    method ClickNextStep() returns (sent: bool, contents: seq<WireTurn>)
      modifies this
      ensures old(Serial()) ==> Serial()
      ensures pending == old(pending) + (if sent then 1 else 0)
      ensures sent == old(NudgeEnabled())
      ensures sent ==> messages == old(messages) + [UserMessage(NextStepText, old(selectedImage))]
                       && inputText == "" && selectedImage == None && isLoading
                       && contents == ToContents(messages)
      ensures !sent ==> messages == old(messages) && inputText == old(inputText)
                        && selectedImage == old(selectedImage) && isLoading == old(isLoading)
                        && contents == []
    {
      sent, contents := false, [];
      if NudgeEnabled() {
        sent, contents := AskNextStep();
      }
    }

    /** Resolution keeps the single-request discipline of the buttons. */
    method ResolveSerial(reply: ApiReply)
      requires Serial() && isLoading
      modifies this
      ensures Serial() && !isLoading
      ensures messages == old(messages) + [AssistantMessage(ReplyText(reply))]
      ensures inputText == old(inputText) && selectedImage == old(selectedImage)
    {
      Resolve(reply);
    }
  }

  /** A fresh chat: the first send puts the greeting and the user turn on
      the wire, in that order. */
  method FirstExchange(question: string) returns (contents: seq<WireTurn>)
    requires !IsBlank(question)
    ensures contents == [ToWireTurn(Greeting()), ToWireTurn(UserMessage(question, None))]
    ensures contents[0].role == ModelRole && contents[1].role == UserRole
  {
    var chat := new Chat();
    chat.SetInputText(question);
    var sent;
    sent, contents := chat.PressEnter();
    assert sent;
    var greeting, turn := Greeting(), UserMessage(question, None);
    assert chat.messages == [greeting, turn];
    ToContentsOfTwo(greeting, turn);
    assert ToWireTurn(greeting).role == ModelRole && ToWireTurn(turn).role != ModelRole;
  }

  /** The nudges are disabled on a fresh chat and enabled once the first
      question has been answered. */
  method NudgesAfterFirstReply(question: string, reply: ApiReply) returns (before: bool, after: bool)
    requires !IsBlank(question)
    ensures !before && after
  {
    var chat := new Chat();
    before := chat.NudgeEnabled();
    chat.SetInputText(question);
    var sent, contents := chat.PressEnter();
    chat.Resolve(reply);
    after := chat.NudgeEnabled();
  }

  /** The Enter key bypasses the disabled send button: a second request can
      be sent while the first is outstanding, and the first resolution then
      clears the loading flag with a request still in flight. */
  method EnterOverlaps() returns (loading: bool, ghost outstanding: nat)
    ensures !loading && outstanding == 1
  {
    var chat := new Chat();
    chat.SetInputText("x + 1 = 2");
    NotBlankWhenFirstIsNotSpace("x + 1 = 2");
    var sent, contents := chat.PressEnter();
    chat.SetInputText("and then?");
    NotBlankWhenFirstIsNotSpace("and then?");
    sent, contents := chat.PressEnter();
    assert chat.pending == 2 && !chat.Serial();
    chat.Resolve(Failed("network error"));
    loading := chat.isLoading;
    outstanding := chat.pending;
  }
}
