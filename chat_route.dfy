/** The chat endpoint before it calls the language model: request
    validation, the question taken from the last user message, and the
    context and prompt built from the retrieved chunks. The embedding,
    retrieval and generation calls are outcomes given as parameters. */
module ChatRoute {
  import opened Text
  import opened Errors
  import Retry

  /** One element of a message's `parts`: `isText` when it is an object whose
      `type` is "text"; `text` is None when its `text` is null or undefined. */
  datatype Part = Part(isText: bool, text: Option<string>)

  /** One element of `messages`: JSON `null`, or a value whose `role` and
      `parts` are read (a primitive has neither: role "" and no parts). */
  datatype Message = Null | Message(role: string, parts: Option<seq<Part>>)

  /** The parsed body: `docId` is None when it is missing or falsy, and
      `messages` is None when it is not an array. */
  datatype Request = Request(docId: Option<string>, messages: Option<seq<Message>>)

  /** A retrieved chunk, with the two fields the context uses. */
  datatype Record = Record(pageStart: int, text: string)

  /** What is asked of the vector index: the `TopK` nearest chunks of `docId`
      to the embedding of `question`. */
  datatype Query = Query(docId: string, question: string, topK: nat)

  /** A JSON error reply, or the streamed answer to `prompt`. */
  datatype Response = Reply(status: int, error: string) | Answer(query: Query, prompt: string)

  const TopK: nat := 8
  const Fallback := "Chat failed"

  /** The retry options of the model call: four attempts, 2000 ms before
      the first retry, a 15000 ms cap, doubling. */
  const GenerationRetry: Retry.Overrides := Retry.Overrides(Some(4), Some(2000), Some(15000), Some(2))

  /** What reading `role` of `null` throws in Node. */
  const NullRoleMessage := "Cannot read properties of null (reading 'role')"

  /** `[...messages].reverse().find((m) => m.role === "user")`: the search
      runs from the last message back and throws on a `null` it reaches. */
  function LastUser(messages: seq<Message>): Result<Option<Message>, ErrorValue>
  {
    if messages == [] then Ok(None)
    else
      var m := messages[|messages| - 1];
      if m.Null? then Err(NewError(NullRoleMessage))
      else if m.role == "user" then Ok(Some(m))
      else LastUser(messages[..|messages| - 1])
  }

  /** No message after `i` is a user message or `null`. */
  predicate OthersAfter(messages: seq<Message>, i: int) {
    forall j :: 0 <= j < |messages| && i < j ==> messages[j].Message? && messages[j].role != "user"
  }

  lemma OthersAfterInit(messages: seq<Message>, i: int)
    requires messages != [] && OthersAfter(messages, i) && -1 <= i < |messages| - 1
    ensures OthersAfter(messages[..|messages| - 1], i)
  {
    var init := messages[..|messages| - 1];
    forall j | i < j < |init| ensures init[j].Message? && init[j].role != "user" {
      assert init[j] == messages[j];
    }
  }

  /** The search finds the user message that no later user message follows. */
  lemma {:induction false} LastUserFinds(messages: seq<Message>, i: nat)
    requires i < |messages| && messages[i].Message? && messages[i].role == "user"
    requires OthersAfter(messages, i)
    ensures LastUser(messages) == Ok(Some(messages[i]))
    decreases |messages|
  {
    if i < |messages| - 1 {
      OthersAfterInit(messages, i);
      var init := messages[..|messages| - 1];
      assert init[i] == messages[i];
      LastUserFinds(init, i);
    }
  }

  /** It throws when it reaches a `null` before any user message. */
  lemma {:induction false} LastUserThrows(messages: seq<Message>, i: nat)
    requires i < |messages| && messages[i].Null?
    requires OthersAfter(messages, i)
    ensures LastUser(messages) == Err(NewError(NullRoleMessage))
    decreases |messages|
  {
    if i < |messages| - 1 {
      OthersAfterInit(messages, i);
      var init := messages[..|messages| - 1];
      assert init[i] == messages[i];
      LastUserThrows(init, i);
    }
  }

  /** It finds nothing when there is neither a user message nor a `null`. */
  lemma {:induction false} LastUserNone(messages: seq<Message>)
    requires OthersAfter(messages, -1)
    ensures LastUser(messages) == Ok(None)
    decreases |messages|
  {
    if messages != [] {
      OthersAfterInit(messages, -1);
      LastUserNone(messages[..|messages| - 1]);
    }
  }

  /** The only error the search throws is the one for `null`. */
  lemma {:induction false} LastUserError(messages: seq<Message>)
    ensures LastUser(messages).Err? ==> LastUser(messages).error == NewError(NullRoleMessage)
    decreases |messages|
  {
    if messages != [] {
      LastUserError(messages[..|messages| - 1]);
    }
  }

  /** `p && p.type === "text" ? String(p.text ?? "") : ""`. */
  function PartText(p: Part): string {
    if p.isText && p.text.Some? then p.text.value else ""
  }

  function PartTexts(parts: seq<Part>): seq<string> {
    seq(|parts|, i requires 0 <= i < |parts| => PartText(parts[i]))
  }

  /** The question: the texts of the last user message's parts joined with
      single spaces and trimmed; "" when there is no such message or its
      `parts` is not an array. */
  function Question(last: Option<Message>): string {
    if last.Some? && last.value.Message? && last.value.parts.Some? then
      Trim(Join(PartTexts(last.value.parts.value), " "))
    else ""
  }

  /** A question is "" or starts and ends with a non-whitespace character,
      and a message holding one text part asks that text, trimmed. */
  lemma QuestionTrimmed(last: Option<Message>, t: string)
    ensures var q := Question(last); q != [] ==> !IsWs(q[0]) && !IsWs(q[|q| - 1])
    ensures Question(Some(Message("user", Some([Part(true, Some(t))])))) == Trim(t)
  {
    assert PartTexts([Part(true, Some(t))]) == [t];
  }

  /** `\n[p.<pageStart>]\n<text>`. */
  function Block(r: Record): string {
    "\n[p." + IntToString(r.pageStart) + "]\n" + r.text
  }

  function Blocks(records: seq<Record>): seq<string> {
    seq(|records|, i requires 0 <= i < |records| => Block(records[i]))
  }

  /** The records' blocks joined with blank lines. */
  function Context(records: seq<Record>): string {
    Join(Blocks(records), "\n\n")
  }

  /** The user turn sent to the model. */
  function Prompt(context: string, question: string): string {
    "Context:\n" + context + "\n\nQuestion: " + question
  }

  /** The `POST` handler. `body` is what `req.json()` gives or throws,
      `retrieved` what embedding the question and querying the index give or
      throw, and `generation` the error the model call still throws after its
      retries, if any. */
  function Post(body: Result<Request, ErrorValue>, retrieved: Result<seq<Record>, ErrorValue>,
                generation: Option<ErrorValue>): Response
  {
    match body
    case Err(e) => Reply(500, MessageOr(e, Fallback))
    case Ok(req) =>
      if req.docId.None? || req.docId.value == "" then Reply(400, "Missing docId")
      else if req.messages.None? || req.messages.value == [] then Reply(400, "Missing messages")
      else
        match LastUser(req.messages.value)
        case Err(e) => Reply(500, MessageOr(e, Fallback))
        case Ok(last) =>
          var question := Question(last);
          if question == "" then Reply(400, "Missing user text")
          else
            match retrieved
            case Err(e) => Reply(500, MessageOr(e, Fallback))
            case Ok(records) =>
              if generation.Some? then Reply(500, MessageOr(generation.value, Fallback))
              else Answer(Query(req.docId.value, question, TopK), Prompt(Context(records), question))
  }

  /** A missing `docId` is refused first, whatever the messages and the services do. */
  lemma MissingDocIdFirst(req: Request, retrieved: Result<seq<Record>, ErrorValue>, generation: Option<ErrorValue>)
    requires req.docId.None? || req.docId == Some("")
    ensures Post(Ok(req), retrieved, generation) == Reply(400, "Missing docId")
  {
  }

  /** With a `docId`, a non-array or empty `messages` is refused next. */
  lemma MissingMessages(req: Request, retrieved: Result<seq<Record>, ErrorValue>, generation: Option<ErrorValue>)
    requires req.docId.Some? && req.docId.value != ""
    ensures Post(Ok(req), retrieved, generation) == Reply(400, "Missing messages")
            <==> req.messages.None? || req.messages.value == []
  {
  }

  /** The reply is 400 "Missing user text" exactly when the request has a
      `docId` and messages, the search does not throw, and the question is
      empty, which includes having no user message at all. */
  lemma MissingUserText(req: Request, retrieved: Result<seq<Record>, ErrorValue>, generation: Option<ErrorValue>)
    ensures Post(Ok(req), retrieved, generation) == Reply(400, "Missing user text")
            <==> && req.docId.Some? && req.docId.value != ""
                 && req.messages.Some? && req.messages.value != []
                 && LastUser(req.messages.value).Ok?
                 && Question(LastUser(req.messages.value).value) == ""
  {
  }

  /** Without a user message the question is missing. */
  lemma NoUserMessage(req: Request, retrieved: Result<seq<Record>, ErrorValue>, generation: Option<ErrorValue>)
    requires req.docId.Some? && req.docId.value != ""
    requires req.messages.Some? && req.messages.value != [] && OthersAfter(req.messages.value, -1)
    ensures Post(Ok(req), retrieved, generation) == Reply(400, "Missing user text")
  {
    LastUserNone(req.messages.value);
  }

  /** Every failure of a step that throws is a 500 carrying the thrown
      error's message, or "Chat failed" for a value that is not an `Error`. */
  lemma ThrownIs500(body: Result<Request, ErrorValue>, retrieved: Result<seq<Record>, ErrorValue>,
                    generation: Option<ErrorValue>)
    ensures body.Err? ==> Post(body, retrieved, generation) == Reply(500, MessageOr(body.error, Fallback))
    ensures var r := Post(body, retrieved, generation);
            r.Reply? && r.status == 500 ==>
              || (body.Err? && r.error == MessageOr(body.error, Fallback))
              || (body.Ok? && body.value.messages.Some? && r.error == NullRoleMessage)
              || (retrieved.Err? && r.error == MessageOr(retrieved.error, Fallback))
              || (generation.Some? && r.error == MessageOr(generation.value, Fallback))
  {
    if body.Ok? && body.value.messages.Some? {
      LastUserError(body.value.messages.value);
    }
  }

  /** Every reply is one of the three 400s, a 500, or the answer. */
  lemma Replies(body: Result<Request, ErrorValue>, retrieved: Result<seq<Record>, ErrorValue>,
                generation: Option<ErrorValue>)
    ensures var r := Post(body, retrieved, generation);
            r.Reply? ==> (r.status == 400 && r.error in {"Missing docId", "Missing messages", "Missing user text"})
                         || r.status == 500
  {
  }

  /** An answer is given exactly when every guard passes and every service
      succeeds; it asks for the 8 nearest chunks of the request's document,
      its question is the trimmed, non-empty last user text, and its prompt
      is the context of the retrieved records followed by that question. */
  lemma AnswerWhenAllSucceed(req: Request, retrieved: Result<seq<Record>, ErrorValue>, generation: Option<ErrorValue>)
    ensures var r := Post(Ok(req), retrieved, generation);
            r.Answer? <==> && req.docId.Some? && req.docId.value != ""
                           && req.messages.Some? && req.messages.value != []
                           && LastUser(req.messages.value).Ok?
                           && Question(LastUser(req.messages.value).value) != ""
                           && retrieved.Ok? && generation.None?
    ensures var r := Post(Ok(req), retrieved, generation);
            r.Answer? ==>
              var q := r.query.question;
              && r.query.docId == req.docId.value && r.query.topK == 8
              && q != [] && !IsWs(q[0]) && !IsWs(q[|q| - 1])
              && q == Question(LastUser(req.messages.value).value)
              && r.prompt == Prompt(Context(retrieved.value), q)
  {
    var r := Post(Ok(req), retrieved, generation);
    if r.Answer? {
      QuestionTrimmed(LastUser(req.messages.value).value, "");
    }
  }

  /** The prompt starts with the context header, holds the whole context,
      and ends with the question after the question header. */
  lemma PromptLayout(context: string, question: string)
    ensures var p := Prompt(context, question);
            && |p| == 9 + |context| + 12 + |question|
            && p[..9] == "Context:\n"
            && p[9..9 + |context|] == context
            && p[9 + |context|..21 + |context|] == "\n\nQuestion: "
            && p[21 + |context|..] == question
  {
  }

  // ---------------------------------------------------------------------------
  // Where each record sits in the context

  /** Where part `k` starts in `Join(parts, sep)`. */
  function JoinOffset(parts: seq<string>, sep: string, k: nat): nat
    requires k <= |parts|
  {
    if k == 0 then 0 else JoinOffset(parts, sep, k - 1) + |parts[k - 1]| + |sep|
  }

  /** Offsets depend only on the parts before. */
  lemma {:induction false} JoinOffsetPrefix(parts: seq<string>, sep: string, n: nat, k: nat)
    requires k <= n <= |parts|
    ensures JoinOffset(parts[..n], sep, k) == JoinOffset(parts, sep, k)
  {
    if k > 0 {
      JoinOffsetPrefix(parts, sep, n, k - 1);
      assert parts[..n][k - 1] == parts[k - 1];
    }
  }

  lemma {:induction false} JoinLength(parts: seq<string>, sep: string)
    requires parts != []
    ensures |Join(parts, sep)| == JoinOffset(parts, sep, |parts| - 1) + |parts[|parts| - 1]|
  {
    if |parts| > 1 {
      var init := parts[..|parts| - 1];
      JoinLength(init, sep);
      JoinOffsetPrefix(parts, sep, |parts| - 1, |parts| - 2);
    }
  }

  /** Part `k` of a join sits at its offset, after a separator when it is not
      the first. */
  lemma {:induction false} JoinInfix(parts: seq<string>, sep: string, k: nat)
    requires k < |parts|
    ensures JoinOffset(parts, sep, k) + |parts[k]| <= |Join(parts, sep)|
    ensures Join(parts, sep)[JoinOffset(parts, sep, k)..JoinOffset(parts, sep, k) + |parts[k]|] == parts[k]
    ensures k > 0 ==> Join(parts, sep)[JoinOffset(parts, sep, k) - |sep|..JoinOffset(parts, sep, k)] == sep
    decreases |parts|
  {
    if |parts| > 1 {
      if k < |parts| - 1 {
        JoinInfix(parts[..|parts| - 1], sep, k);
        JoinInfixEarlier(parts, sep, k);
      } else {
        JoinInfixLast(parts, sep);
      }
    }
  }

  /** The step of `JoinInfix` for a part before the last. */
  lemma JoinInfixEarlier(parts: seq<string>, sep: string, k: nat)
    requires k < |parts| - 1
    requires var init := parts[..|parts| - 1];
             && JoinOffset(init, sep, k) + |init[k]| <= |Join(init, sep)|
             && Join(init, sep)[JoinOffset(init, sep, k)..JoinOffset(init, sep, k) + |init[k]|] == init[k]
             && (k > 0 ==> Join(init, sep)[JoinOffset(init, sep, k) - |sep|..JoinOffset(init, sep, k)] == sep)
    ensures JoinOffset(parts, sep, k) + |parts[k]| <= |Join(parts, sep)|
    ensures Join(parts, sep)[JoinOffset(parts, sep, k)..JoinOffset(parts, sep, k) + |parts[k]|] == parts[k]
    ensures k > 0 ==> Join(parts, sep)[JoinOffset(parts, sep, k) - |sep|..JoinOffset(parts, sep, k)] == sep
  {
    var n := |parts|;
    var init := parts[..n - 1];
    var j := Join(init, sep);
    JoinOffsetPrefix(parts, sep, n - 1, k);
    var o := JoinOffset(parts, sep, k);
    assert Join(parts, sep) == j + (sep + parts[n - 1]);
    assert init[k] == parts[k];
    SliceOfPrefix(j, sep + parts[n - 1], o, o + |parts[k]|);
    if k > 0 {
      SliceOfPrefix(j, sep + parts[n - 1], o - |sep|, o);
    }
  }

  /** The step of `JoinInfix` for the last part. */
  lemma JoinInfixLast(parts: seq<string>, sep: string)
    requires |parts| > 1
    ensures var o := JoinOffset(parts, sep, |parts| - 1);
            && o + |parts[|parts| - 1]| == |Join(parts, sep)|
            && Join(parts, sep)[o..o + |parts[|parts| - 1]|] == parts[|parts| - 1]
            && Join(parts, sep)[o - |sep|..o] == sep
  {
    var n := |parts|;
    var init := parts[..n - 1];
    var j := Join(init, sep);
    JoinLength(init, sep);
    JoinOffsetPrefix(parts, sep, n - 1, n - 2);
    assert JoinOffset(parts, sep, n - 1) == |j| + |sep|;
    assert Join(parts, sep) == j + sep + parts[n - 1];
  }

  lemma SliceOfPrefix(a: string, b: string, i: nat, e: nat)
    requires i <= e <= |a|
    ensures (a + b)[i..e] == a[i..e]
  {
  }

  /** The context holds each record's block at the block's offset (what a
      block holds is `BlockAt`). */
  lemma ContextHoldsRecords(records: seq<Record>, k: nat)
    requires k < |records|
    ensures var c, o, b := Context(records), JoinOffset(Blocks(records), "\n\n", k), Blocks(records)[k];
            o + |b| <= |c| && c[o..o + |b|] == b
  {
    PartOfJoin(Context(records), Blocks(records), "\n\n", k);
  }

  /** Consecutive blocks are a blank line apart. */
  lemma ContextSeparatesRecords(records: seq<Record>, k: nat)
    requires 0 < k < |records|
    ensures var c, o := Context(records), JoinOffset(Blocks(records), "\n\n", k);
            o <= |c| && c[o - 2..o] == "\n\n"
  {
    SepOfJoin(Context(records), Blocks(records), "\n\n", k);
  }

  /** The blocks are in the records' order: the first at the start of the
      context, each other one after the block before it and a blank line. */
  lemma BlockOffsets(records: seq<Record>, k: nat)
    requires k < |records|
    ensures JoinOffset(Blocks(records), "\n\n", 0) == 0
    ensures k > 0 ==> JoinOffset(Blocks(records), "\n\n", k)
                      == JoinOffset(Blocks(records), "\n\n", k - 1) + |Blocks(records)[k - 1]| + 2
  {
  }

  /** `JoinInfix` for a join `c` already computed: the part. */
  lemma PartOfJoin(c: string, parts: seq<string>, sep: string, k: nat)
    requires c == Join(parts, sep) && k < |parts|
    ensures var o := JoinOffset(parts, sep, k);
            o + |parts[k]| <= |c| && c[o..o + |parts[k]|] == parts[k]
  {
    JoinInfix(parts, sep, k);
  }

  /** `JoinInfix` for a join `c` already computed: the separator before. */
  lemma SepOfJoin(c: string, parts: seq<string>, sep: string, k: nat)
    requires c == Join(parts, sep) && 0 < k < |parts|
    ensures var o := JoinOffset(parts, sep, k);
            o <= |c| && c[o - |sep|..o] == sep
  {
    JoinInfix(parts, sep, k);
  }

  /** Block `k` is `\n[p.<pageStart>]\n<text>` of record `k`, and the
      digits of its marker read back as the record's page. */
  lemma BlockAt(records: seq<Record>, k: nat)
    requires k < |records|
    ensures var b, r := Blocks(records)[k], records[k];
            && |b| >= 6 + |r.text|
            && b[..4] == "\n[p."
            && b[|b| - |r.text| - 2..] == "]\n" + r.text
            && (r.pageStart >= 0 ==> var digits := b[4..|b| - |r.text| - 2];
                                     AllDigits(digits) && DecimalValue(digits) == r.pageStart)
  {
    var r := records[k];
    var digits := IntToString(r.pageStart);
    var b := Blocks(records)[k];
    assert b == "\n[p." + digits + ("]\n" + r.text);
    assert b[4..|b| - |r.text| - 2] == digits;
    if r.pageStart >= 0 {
      NatToStringRoundTrip(r.pageStart);
    }
  }

  /** No records, no context. */
  lemma EmptyContext()
    ensures Context([]) == ""
  {
    assert Blocks([]) == [];
  }

  /** The model call under its retry options: one to four invocations, waits
      of at most 15000 ms; when all four fail with retryable errors the
      fourth error is what the handler sees, after waits of 2000, 4000 and
      8000 ms. */
  lemma GenerationRetries<T>(op: nat -> Retry.Outcome<T>)
    ensures var r := Retry.Retrying(op, Retry.Merge(GenerationRetry));
            && 1 <= r.calls <= 4
            && forall j :: 0 <= j < |r.delays| ==> r.delays[j] <= 15000
    ensures (forall j :: 0 <= j < 4 ==> op(j).Failure? && Retry.IsRetryableError(op(j).error)) ==>
              Retry.Retrying(op, Retry.Merge(GenerationRetry)) == Retry.Run(Err(op(3).error), 4, [2000, 4000, 8000])
  {
    var o := Retry.Merge(GenerationRetry);
    assert o == Retry.Options(4, 2000, 15000, 2);
    Retry.CallsBounded(op, o);
    Retry.DelaysBounded(op, o);
    if forall j :: 0 <= j < 4 ==> op(j).Failure? && Retry.IsRetryableError(op(j).error) {
      Retry.ExhaustedThrowsLast(op, o);
      var ds := Retry.Retrying(op, o).delays;
      assert ds[1] == Retry.Min(ds[0] * 2, 15000);
      assert ds[2] == Retry.Min(ds[1] * 2, 15000);
      assert ds == [2000, 4000, 8000];
    }
  }
}
