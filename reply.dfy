/** The `bot.on("text", ...)` handler of api/bot.js and index.js: trim the message,
    build the prompt, call the completion API, and reply with the escaped first
    choice or with a fixed fallback text.

    The network call and the replies are not modelled as I/O: what `fetch` and
    `resp.json()` produced is a `Fetched` value, and whether each `ctx.reply` was
    accepted by the messaging platform is a `Delivery` value. */
module TextHandler {
  import opened Wrappers
  import MarkdownV2
  import Prompt

  /** A JavaScript value as the handler sees it: what `resp.json()` parsed, or
      `undefined` where a property is missing. Objects are given by their own
      properties; none of the property names read here is defined by a prototype. */
  datatype Js =
    | Undefined
    | Null
    | Bool(b: bool)
    | Num(x: real)
    | Str(s: string)
    | Arr(items: seq<Js>)
    | Obj(props: map<string, Js>)

  /** `null` or `undefined`: where an optional chain `?.` stops. */
  predicate Nullish(v: Js) {
    v.Undefined? || v.Null?
  }

  /** JavaScript truthiness, as `!aiContent` tests it: the falsy values are
      `undefined`, `null`, `false`, `0` and the empty string. */
  predicate Truthy(v: Js)
    ensures Truthy(v) <==> !(v == Undefined || v == Null || v == Bool(false) || v == Num(0.0) || v == Str(""))
  {
    match v
    case Undefined => false
    case Null => false
    case Bool(b) => b
    case Num(x) => x != 0.0
    case Str(s) => s != []
    case Arr(_) => true
    case Obj(_) => true
  }

  /** `v.name` on a value that is not nullish, for a name that is not an index. */
  function Get(v: Js, name: string): Js {
    if v.Obj? && name in v.props then v.props[name] else Undefined
  }

  /** `v[0]` on a value that is not nullish: an array's first element, a string's
      first character, an object's property "0". */
  function At0(v: Js): Js {
    match v
    case Arr(items) => if items != [] then items[0] else Undefined
    case Str(s) => if s != [] then Str([s[0]]) else Undefined
    case Obj(props) => if "0" in props then props["0"] else Undefined
    case _ => Undefined
  }

  /** Why the handler falls back; each is an error thrown inside the `try` and logged. */
  datatype Failure =
    | NetworkError   // `fetch` rejected
    | BodyNotJson    // `resp.json()` rejected
    | NoBody         // the body is `null`, so reading `data.choices` throws a TypeError
    | EmptyReply     // the content is missing or falsy: "Respuesta vacía de la IA"
    | NotText        // the content is truthy but not a string, so `text.replace` throws a TypeError
    | ReplyRefused   // the reply carrying the answer was rejected

  /** What the completion call produced. */
  datatype Fetched = FetchFailed | JsonFailed | Parsed(data: Js)

  /** Whether the messaging platform accepted a `ctx.reply`. */
  datatype Delivery = Delivered | Refused

  /** One outgoing reply: the answer, sent with `parse_mode: "MarkdownV2"`, or the
      fixed fallback notice, sent without options. */
  datatype Reply = Answer(escaped: string) | FallbackNotice {
    /** The text of the message. */
    function Text(): string {
      match this
      case Answer(escaped) => escaped
      case FallbackNotice => FallbackText
    }

    /** Whether the message asks for MarkdownV2 rendering. */
    predicate InMarkdownV2() {
      Answer?
    }
  }

  /** The two deployments: the webhook handler of api/bot.js and the polling process of index.js. */
  datatype EntryPoint = Webhook | Polling

  /** One run of the text handler: the prompt it sent, the replies it attempted in
      order, the error it logged, and whether the handler's promise rejected. */
  datatype Run = Run(prompt: string, sent: seq<Reply>, logged: Option<Failure>, rejects: bool)

  const FallbackText: string := "\U{274C} Error al generar la receta. Intenta de nuevo más tarde."

  /** The `escapeMarkdownV2` of each entry point's own file. */
  function SanitizerOf(entry: EntryPoint, content: string): string {
    match entry
    case Webhook => MarkdownV2.Escape(content)
    case Polling => MarkdownV2.EscapeIndexJs(content)
  }

  /** `data.choices?.[0]?.message?.content`; `data` itself is read without `?.`. */
  function FirstContent(data: Js): (r: Result<Js, Failure>)
    ensures r.Err? <==> Nullish(data)
    ensures r.Err? ==> r.error == NoBody
    ensures forall c :: r == Ok(Str(c)) <==> CarriesContent(data, c)
  {
    if Nullish(data) then Err(NoBody)
    else
      var choices := Get(data, "choices");
      var first := if Nullish(choices) then Undefined else At0(choices);
      var message := if Nullish(first) then Undefined else Get(first, "message");
      Ok(if Nullish(message) then Undefined else Get(message, "content"))
  }

  /** The text to escape, or why there is none. Only a non-empty string gets through. */
  function Completion(f: Fetched): (r: Result<string, Failure>)
    ensures r.Ok? ==> f.Parsed? && r.value != [] && FirstContent(f.data) == Ok(Str(r.value))
  {
    match f
    case FetchFailed => Err(NetworkError)
    case JsonFailed => Err(BodyNotJson)
    case Parsed(data) =>
      match FirstContent(data)
      case Err(e) => Err(e)
      case Ok(content) =>
        if !Truthy(content) then Err(EmptyReply)
        else if content.Str? then Ok(content.s)
        else Err(NotText)
  }

  /** The text handler. Trimming and building the prompt happen before the `try`;
      everything from the `fetch` to the first reply is inside it; the fallback
      reply is made in the `catch`, so its rejection escapes the handler. */
  function HandleText(entry: EntryPoint, text: string, f: Fetched,
                      answerDelivery: Delivery, fallbackDelivery: Delivery): (r: Run)
    ensures r.prompt == Prompt.BuildPrompt(text)
    ensures 1 <= |r.sent| <= 2
    ensures forall i :: 0 <= i < |r.sent| ==>
      r.sent[i] == FallbackNotice
      || (Completion(f).Ok? && r.sent[i] == Answer(MarkdownV2.Escape(Completion(f).value)))
    ensures r.logged.None? <==> Completion(f).Ok? && answerDelivery == Delivered
    ensures r.rejects <==> r.logged.Some? && fallbackDelivery == Refused
  {
    var prompt := Prompt.BuildPrompt(text);
    match Completion(f)
    case Err(e) => Run(prompt, [FallbackNotice], Some(e), fallbackDelivery == Refused)
    case Ok(content) =>
      var answer := Answer(SanitizerOf(entry, content));
      if answerDelivery == Delivered then Run(prompt, [answer], None, false)
      else Run(prompt, [answer, FallbackNotice], Some(ReplyRefused), fallbackDelivery == Refused)
  }

  // ---------------------------------------------------------------------------
  // The response shape, stated without optional chaining

  /** `v` is an object with an own property `key`, and this is its value. */
  function Field(v: Js, key: string): Option<Js> {
    if v.Obj? && key in v.props then Some(v.props[key]) else None
  }

  /** The `message.content` of a choice. */
  function MessageContent(choice: Js): Option<Js> {
    match Field(choice, "message")
    case None => None
    case Some(message) => Field(message, "content")
  }

  /** The body is an object whose `choices` hold, first, a choice whose
      `message.content` is the string `c`. `choices` is normally an array; an
      object with a property "0" is read the same way. */
  predicate CarriesContent(data: Js, c: string) {
    match Field(data, "choices")
    case Some(Arr(items)) => items != [] && MessageContent(items[0]) == Some(Str(c))
    case Some(Obj(props)) => "0" in props && MessageContent(props["0"]) == Some(Str(c))
    case _ => false
  }

  /** The handler answers with `c` exactly when the body carries `c` as the
      first choice's content and `c` is not empty. */
  lemma {:induction false} CompletionOkIff(data: Js, c: string)
    ensures Completion(Parsed(data)) == Ok(c) <==> c != [] && CarriesContent(data, c)
  {
  }

  /** A body of the usual shape with non-empty content: the user gets the escaped
      content, in MarkdownV2, and nothing else; nothing is logged. */
  lemma {:induction false} AnswerSent(entry: EntryPoint, text: string, data: Js, c: string, fallbackDelivery: Delivery)
    requires c != [] && CarriesContent(data, c)
    ensures HandleText(entry, text, Parsed(data), Delivered, fallbackDelivery)
      == Run(Prompt.BuildPrompt(text), [Answer(MarkdownV2.Escape(c))], None, false)
  {
    CompletionOkIff(data, c);
  }

  /** Any failure before the answer is sent: exactly the fallback text, without a parse mode, is sent. */
  lemma {:induction false} FallbackOnFailure(entry: EntryPoint, text: string, f: Fetched,
                          answerDelivery: Delivery, fallbackDelivery: Delivery)
    requires Completion(f).Err?
    ensures var r := HandleText(entry, text, f, answerDelivery, fallbackDelivery);
      r.sent == [FallbackNotice] && !r.sent[0].InMarkdownV2() && r.logged == Some(Completion(f).error)
      && (r.rejects <==> fallbackDelivery == Refused)
  {
  }

  /** The answer was refused: the fallback follows it. */
  lemma {:induction false} FallbackAfterRefusedAnswer(entry: EntryPoint, text: string, f: Fetched, fallbackDelivery: Delivery)
    requires Completion(f).Ok?
    ensures var r := HandleText(entry, text, f, Refused, fallbackDelivery);
      r.sent == [Answer(MarkdownV2.Escape(Completion(f).value)), FallbackNotice]
      && r.logged == Some(ReplyRefused) && (r.rejects <==> fallbackDelivery == Refused)
  {
  }

  /** The failure sources of the fetch and the body, one by one. */
  lemma {:induction false} FailureSources(data: Js)
    ensures Completion(FetchFailed) == Err(NetworkError)
    ensures Completion(JsonFailed) == Err(BodyNotJson)
    ensures Completion(Parsed(Null)) == Err(NoBody)
    ensures Field(data, "choices").None? ==> Completion(Parsed(data)) == Err(if Nullish(data) then NoBody else EmptyReply)
    ensures Field(data, "choices") == Some(Arr([])) ==> Completion(Parsed(data)) == Err(EmptyReply)
    ensures (exists items :: Field(data, "choices") == Some(Arr(items)) && items != []
              && Field(items[0], "message").None?)
            ==> Completion(Parsed(data)) == Err(EmptyReply)
  {
  }

  /** Content that is present but empty, or that is not a string. */
  lemma {:induction false} BadContent(data: Js, content: Js)
    requires FirstContent(data) == Ok(content)
    ensures content == Str("") ==> Completion(Parsed(data)) == Err(EmptyReply)
    ensures Truthy(content) && !content.Str? ==> Completion(Parsed(data)) == Err(NotText)
  {
  }

  /** Given the same completion outcome, the two entry points behave alike. */
  lemma {:induction false} EntryPointsAgree(text: string, f: Fetched, answerDelivery: Delivery, fallbackDelivery: Delivery)
    ensures HandleText(Polling, text, f, answerDelivery, fallbackDelivery)
      == HandleText(Webhook, text, f, answerDelivery, fallbackDelivery)
  {
  }

  /** `{"choices":[{"message":{"content":"Hola!"}}]}` is answered with `Hola\!` in MarkdownV2. */
  lemma {:induction false} ExampleAnswer(entry: EntryPoint, text: string, hola: string, message: Js, choice: Js, body: Js)
    requires hola == "Hola"
    requires message == Obj(map["content" := Str(hola + "!")])
    requires choice == Obj(map["message" := message])
    requires body == Obj(map["choices" := Arr([choice])])
    ensures HandleText(entry, text, Parsed(body), Delivered, Delivered).sent == [Answer(hola + "\\!")]
  {
    var c := hola + "!";
    assert CarriesContent(body, c) by {
      assert MessageContent(choice) == Some(Str(c));
    }
    assert MarkdownV2.Escape(c) == hola + "\\!" by {
      MarkdownV2.NoReservedUnchanged(hola);
      MarkdownV2.EscapeAppend(hola, "!");
      MarkdownV2.CountOne('!');
    }
    AnswerSent(entry, text, body, c, Delivered);
  }

  /** `{"choices":[]}` is answered with the fallback text. */
  lemma {:induction false} ExampleNoChoice(entry: EntryPoint, text: string, body: Js)
    requires body == Obj(map["choices" := Arr([])])
    ensures HandleText(entry, text, Parsed(body), Delivered, Delivered).sent == [FallbackNotice]
  {
    assert Completion(Parsed(body)) == Err(EmptyReply) by {
      assert Get(body, "choices") == Arr([]);
    }
    FallbackOnFailure(entry, text, Parsed(body), Delivered, Delivered);
  }
}
