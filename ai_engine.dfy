/**
  The text side of the AI service: the greedy chunker that re-packs the words
  of an extracted PDF, the three prompt templates, the batch planner that asks
  the language model for questions twenty at a time, and the dispatch on the
  requested output type.

  The language model is a parameter: llm(k, p) is the text of the reply to the
  k-th chat request (counting from 0) of one process_pdf run, whose message is
  the text of prompt p. Rendering prompts to text is injective
  (PromptTextInjective), so a reply that depends on the message text is a
  function of the prompt.
  The call index lets two requests with the same prompt get different replies,
  as sampling at temperature 0.6 allows.
 */
module AiEngine {
  import opened Wrappers
  import opened Text

  // ------------------------------------------------------------ collaborators

  /** The ValueError the engine raises, with its message. */
  datatype EngineError = ValueError(message: string)

  const ModeError := ValueError("mode must be 'quiz' or 'bubblesheet'")
  const UnknownTypeError := ValueError("type_ must be summary / quiz / bubblesheet")

  /** One chat-completion request: model, the role of the single message,
      the prompt whose text (PromptText) is that message's content, and the
      sampling temperature. */
  datatype ChatRequest = ChatRequest(model: string, role: string, prompt: Prompt, temperature: real)

  /** The request every call of the engine sends for a prompt. */
  function UserRequest(prompt: Prompt): ChatRequest
  {
    ChatRequest("gpt-4o-mini", "user", prompt, 0.6)
  }

  type Llm = (nat, Prompt) -> string

  // ------------------------------------------------------------------ prompts

  const SummaryHead :=
    "\n" +
    "أنت مدرس جامعي محترف.\n" +
    "المطلوب:\n" +
    "- تلخيص المحتوى بطريقة ذكية.\n" +
    "- شرح المفاهيم كأنك تشرح لطالب سيذاكر للامتحان.\n" +
    "- استخدم نقاط واضحة.\n" +
    "- أمثلة إذا وجدت.\n" +
    "- لغة عربية فصيحة.\n" +
    "\n" +
    "المحتوى:\n"
  const QuizHead :=
    "\n" +
    "أنت مدرس خبير.\n" +
    "المطلوب:\n" +
    "- أنشئ "
  const QuizBody :=
    " " + "سؤال اختيار من متعدد من المحتوى التالي.\n" +
    "- أسئلة للفهم وليس الحفظ.\n" +
    "- كل سؤال 4 اختيارات: أ، ب، ج، د.\n" +
    "- لا تكرر الأفكار.\n" +
    "- لا تضع الإجابات.\n" +
    "- لغة عربية فصيحة.\n" +
    "\n" +
    "المحتوى:\n"
  const BubbleSheetHead :=
    "\n" +
    "انت مدرس خبير\n" +
    "المطلوب:\n" +
    "1-أنشئ "
  const BubbleSheetBody :=
    " " + "سؤال اختيار من متعدد من المحتوى التالي.\n" +
    "2- كل سؤال 4 اختيارات: أ، ب، ج، د.\n" +
    "3- لكل سؤال إجابة واحدة صحيحة فقط.\n" +
    "4- ضع علامة (✓) فقط أمام الاختيار الصحيح.\n" +
    "   - هذا السطر بالذات سيظهر باللون الأخضر في الـ PDF.\n" +
    "   - بقية الأسطر بدون ✓ ستظهر باللون الأسود.\n" +
    "5- لا تكرر نفس الفكرة أو السؤال.\n" +
    "6- اللغة: العربية الفصحى.\n" +
    "7- التنسيق:\n" +
    "   - ترقيم واضح للأسئلة\n" +
    "   - ترتيب منظم\n" +
    "   - جاهز للطباعة مباشرة\n" +
    "المحتوى الذي تعتمد عليه في وضع الأسئلة:\n"

  /** A prompt the engine builds, before it is rendered to text: which
      template, the content it closes with and, for the question templates,
      the question count. */
  datatype Prompt =
    | Summary(content: string)
    | Quiz(content: string, count: int)
    | BubbleSheet(content: string, count: int)

  /** The text of a prompt. summary_prompt: the fixed instructions, then the
      content and a newline. quiz_prompt: the instructions with the question
      count in decimal, then the content and a newline. bubble_sheet_prompt:
      as quiz_prompt, with instructions that ask for the correct choice to be
      marked with a check mark. */
  function PromptText(p: Prompt): string
  {
    match p
    case Summary(content) => SummaryHead + content + "\n"
    case Quiz(content, count) => QuizHead + IntToDecimal(count) + QuizBody + content + "\n"
    case BubbleSheet(content, count) => BubbleSheetHead + IntToDecimal(count) + BubbleSheetBody + content + "\n"
  }

  /** The two question modes generate_bulk accepts (compared case-sensitively). */
  predicate IsMode(mode: string)
  {
    mode == "quiz" || mode == "bubblesheet"
  }

  /** The prompt of a question mode. */
  function ModePrompt(mode: string, content: string, count: int): Prompt
    requires IsMode(mode)
  {
    if mode == "quiz" then Quiz(content, count) else BubbleSheet(content, count)
  }

  /** select_prompt, nested in generate_bulk: the mode's prompt, or the
      ValueError for any other mode. */
  function SelectPrompt(mode: string, content: string, count: int): (r: Result<Prompt, EngineError>)
    ensures r.Ok? <==> IsMode(mode)
    ensures r.Ok? ==> r.value == ModePrompt(mode, content, count)
    ensures r.Err? ==> r.error == ModeError
  {
    if mode == "quiz" then Ok(Quiz(content, count))
    else if mode == "bubblesheet" then Ok(BubbleSheet(content, count))
    else Err(ModeError)
  }

  /** The three templates already differ in their first line. */
  lemma HeadsDistinct()
    ensures |SummaryHead| > 10 && |QuizHead| > 10 && |BubbleSheetHead| > 1
    ensures SummaryHead[10] != QuizHead[10]
    ensures SummaryHead[1] != BubbleSheetHead[1]
    ensures QuizHead[1] != BubbleSheetHead[1]
  {
  }

  /** Both question templates continue after the count with a space. */
  lemma BodiesStartWithSpace()
    ensures QuizBody != [] && QuizBody[0] == ' '
    ensures BubbleSheetBody != [] && BubbleSheetBody[0] == ' '
  {
  }

  lemma SummaryTextInjective(head: string, c: string, d: string)
    requires head + c + "\n" == head + d + "\n"
    ensures c == d
  {
    assert head + c + "\n" == head + (c + "\n") && head + d + "\n" == head + (d + "\n");
    CancelPrefix(head, c + "\n", d + "\n");
    CancelSuffix(c, d, "\n");
  }

  /** Question prompts of one template are equal only for equal counts and
      contents. */
  lemma QuestionTextInjective(head: string, body: string, a: int, b: int, c: string, d: string)
    requires body != [] && body[0] == ' '
    requires head + IntToDecimal(a) + body + c + "\n" == head + IntToDecimal(b) + body + d + "\n"
    ensures a == b && c == d
  {
    var da, db := IntToDecimal(a), IntToDecimal(b);
    assert head + da + body + c + "\n" == head + (da + (body + c + "\n"));
    assert head + db + body + d + "\n" == head + (db + (body + d + "\n"));
    CancelPrefix(head, da + (body + c + "\n"), db + (body + d + "\n"));
    DecimalPrefixUnique(a, b, body + c + "\n", body + d + "\n");
    assert body + c + "\n" == body + (c + "\n") && body + d + "\n" == body + (d + "\n");
    CancelPrefix(body, c + "\n", d + "\n");
    CancelSuffix(c, d, "\n");
  }

  lemma SummaryNotQuestion(head: string, qHead: string, i: nat, c: string, n: int, body: string, d: string)
    requires i < |head| && i < |qHead| && head[i] != qHead[i]
    ensures head + c + "\n" != qHead + IntToDecimal(n) + body + d + "\n"
  {
    assert (head + c + "\n")[i] == head[i];
    assert (qHead + IntToDecimal(n) + body + d + "\n")[i] == qHead[i];
  }

  lemma QuestionsOfTwoTemplates(head: string, otherHead: string, i: nat, m: int, body: string, c: string,
                                n: int, otherBody: string, d: string)
    requires i < |head| && i < |otherHead| && head[i] != otherHead[i]
    ensures head + IntToDecimal(m) + body + c + "\n" != otherHead + IntToDecimal(n) + otherBody + d + "\n"
  {
    assert (head + IntToDecimal(m) + body + c + "\n")[i] == head[i];
    assert (otherHead + IntToDecimal(n) + otherBody + d + "\n")[i] == otherHead[i];
  }

  /** Rendering loses nothing: distinct prompts have distinct texts. So the
      model's reply may as well be a function of the prompt itself, and the
      question count and content reach the model unambiguously. */
  lemma PromptTextInjective(p: Prompt, q: Prompt)
    requires PromptText(p) == PromptText(q)
    ensures p == q
  {
    match p
    case Summary(c) => SummaryTextOnlySummary(c, q);
    case Quiz(c, m) => QuizTextOnlyQuiz(c, m, q);
    case BubbleSheet(c, m) => BubbleSheetTextOnlyBubbleSheet(c, m, q);
  }

  lemma SummaryTextOnlySummary(c: string, q: Prompt)
    requires PromptText(Summary(c)) == PromptText(q)
    ensures q == Summary(c)
  {
    HeadsDistinct();
    match q
    case Summary(d) => SummaryTextInjective(SummaryHead, c, d);
    case Quiz(d, n) => SummaryNotQuestion(SummaryHead, QuizHead, 10, c, n, QuizBody, d);
    case BubbleSheet(d, n) => SummaryNotQuestion(SummaryHead, BubbleSheetHead, 1, c, n, BubbleSheetBody, d);
  }

  lemma QuizTextOnlyQuiz(c: string, m: int, q: Prompt)
    requires PromptText(Quiz(c, m)) == PromptText(q)
    ensures q == Quiz(c, m)
  {
    HeadsDistinct();
    match q
    case Summary(d) => SummaryNotQuestion(SummaryHead, QuizHead, 10, d, m, QuizBody, c);
    case Quiz(d, n) =>
      BodiesStartWithSpace();
      QuestionTextInjective(QuizHead, QuizBody, m, n, c, d);
    case BubbleSheet(d, n) =>
      QuestionsOfTwoTemplates(QuizHead, BubbleSheetHead, 1, m, QuizBody, c, n, BubbleSheetBody, d);
  }

  lemma BubbleSheetTextOnlyBubbleSheet(c: string, m: int, q: Prompt)
    requires PromptText(BubbleSheet(c, m)) == PromptText(q)
    ensures q == BubbleSheet(c, m)
  {
    HeadsDistinct();
    match q
    case Summary(d) => SummaryNotQuestion(SummaryHead, BubbleSheetHead, 1, d, m, BubbleSheetBody, c);
    case Quiz(d, n) =>
      QuestionsOfTwoTemplates(QuizHead, BubbleSheetHead, 1, n, QuizBody, d, m, BubbleSheetBody, c);
    case BubbleSheet(d, n) =>
      BodiesStartWithSpace();
      QuestionTextInjective(BubbleSheetHead, BubbleSheetBody, m, n, c, d);
  }

  // ------------------------------------------------------------- chunk_text

  const DefaultMaxLength := 2500

  /** The state of chunk_text after a prefix of the words: the word groups of
      the chunks already emitted and the group being filled. */
  datatype Packing = Packing(closed: seq<seq<string>>, current: seq<string>)

  /** The greedy rule replayed over the words: a word joins the open group when
      the group and the word, joined by spaces, stay shorter than maxLength;
      otherwise the open group is emitted (even when it is empty) and the word
      opens the next one. */
  function Pack(words: seq<string>, maxLength: int): Packing
    decreases |words|
  {
    if words == [] then Packing([], [])
    else Step(Pack(words[..|words| - 1], maxLength), words[|words| - 1], maxLength)
  }

  /** One iteration of chunk_text's loop, for the word w. */
  function Step(p: Packing, w: string, maxLength: int): Packing
  {
    if |JoinWith(p.current + [w], ' ')| < maxLength then Packing(p.closed, p.current + [w])
    else Packing(p.closed + [p.current], [w])
  }

  /** The word groups of the chunks: the emitted ones and a non-empty last one. */
  function Groups(words: seq<string>, maxLength: int): seq<seq<string>>
  {
    var p := Pack(words, maxLength);
    if p.current == [] then p.closed else p.closed + [p.current]
  }

  /** Each group joined by single spaces. */
  function JoinEach(gs: seq<seq<string>>): (cs: seq<string>)
    ensures |cs| == |gs|
    ensures forall k :: 0 <= k < |gs| ==> cs[k] == JoinWith(gs[k], ' ')
  {
    seq(|gs|, k requires 0 <= k < |gs| => JoinWith(gs[k], ' '))
  }

  lemma JoinEachSnoc(gs: seq<seq<string>>, g: seq<string>)
    ensures JoinEach(gs + [g]) == JoinEach(gs) + [JoinWith(g, ' ')]
  {
  }

  /** The words of each chunk, chunk by chunk. */
  function WordsOfEach(cs: seq<string>): (gs: seq<seq<string>>)
    ensures |gs| == |cs|
    ensures forall k :: 0 <= k < |cs| ==> gs[k] == Words(cs[k])
  {
    seq(|cs|, k requires 0 <= k < |cs| => Words(cs[k]))
  }

  /** Reference definition of chunk_text over the words of the text. */
  function Chunks(words: seq<string>, maxLength: int): seq<string>
  {
    JoinEach(Groups(words, maxLength))
  }

  /** Adding the word w to the group g would reach maxLength. */
  predicate Overflows(g: seq<string>, w: string, maxLength: int)
  {
    |JoinWith(g + [w], ' ')| >= maxLength
  }

  /** Group k was emitted because the first word of group k + 1 would not fit
      in it. */
  predicate ClosedBeforeNext(gs: seq<seq<string>>, k: nat, maxLength: int)
    requires k + 1 < |gs|
  {
    gs[k + 1] != [] && Overflows(gs[k], gs[k + 1][0], maxLength)
  }

  /** The groups hold exactly the words, in order, and only words. */
  ghost predicate KeepsWords(words: seq<string>, p: Packing)
  {
    && Concat(p.closed) + p.current == words
    && (forall k :: 0 <= k < |p.closed| ==> AllWords(p.closed[k]))
    && AllWords(p.current)
  }

  /** Only the first emitted group can be empty, and it is empty exactly when
      the first word alone reaches maxLength; the open group is never empty
      once a word has been seen. */
  ghost predicate EmptyOnlyFirst(words: seq<string>, maxLength: int, p: Packing)
  {
    && (words != [] ==> p.current != [])
    && (p.closed != [] ==> words != [])
    && (forall k :: 0 < k < |p.closed| ==> p.closed[k] != [])
    && (words != [] ==> (|words[0]| >= maxLength <==> p.closed != [] && p.closed[0] == []))
  }

  /** A group of two or more words, joined, is shorter than maxLength. */
  ghost predicate Bounded(maxLength: int, p: Packing)
  {
    && (forall k :: 0 <= k < |p.closed| && |p.closed[k]| >= 2 ==> |JoinWith(p.closed[k], ' ')| < maxLength)
    && (|p.current| >= 2 ==> |JoinWith(p.current, ' ')| < maxLength)
  }

  /** Every emitted group was emitted because the next word did not fit. */
  ghost predicate Greedy(maxLength: int, p: Packing)
  {
    && (forall k :: 0 <= k < |p.closed| - 1 ==> ClosedBeforeNext(p.closed, k, maxLength))
    && (p.closed != [] && p.current != [] ==> Overflows(p.closed[|p.closed| - 1], p.current[0], maxLength))
  }

  lemma ConcatSnoc(xss: seq<seq<string>>, xs: seq<string>)
    ensures Concat(xss + [xs]) == Concat(xss) + xs
  {
    assert (xss + [xs])[..|xss|] == xss;
  }

  /** One step of Pack, unfolded. */
  lemma PackSnoc(words: seq<string>, w: string, maxLength: int)
    ensures Pack(words + [w], maxLength) == Step(Pack(words, maxLength), w, maxLength)
  {
    assert (words + [w])[..|words|] == words;
  }

  /** Pack over one more word of a list, unfolded. */
  lemma PackPrefix(words: seq<string>, i: nat, maxLength: int)
    requires i < |words|
    ensures Pack(words[..i + 1], maxLength) == Step(Pack(words[..i], maxLength), words[i], maxLength)
  {
    assert words[..i + 1] == words[..i] + [words[i]];
    PackSnoc(words[..i], words[i], maxLength);
  }

  lemma KeepsWordsStep(words: seq<string>, w: string, maxLength: int, p: Packing)
    requires KeepsWords(words, p) && IsWord(w)
    ensures KeepsWords(words + [w], Step(p, w, maxLength))
  {
    assert AllWords(p.current + [w]) by {
      forall i | 0 <= i < |p.current + [w]|
        ensures IsWord((p.current + [w])[i])
      {
        if i < |p.current| {
          assert (p.current + [w])[i] == p.current[i];
        }
      }
    }
    if |JoinWith(p.current + [w], ' ')| < maxLength {
      assert Concat(p.closed) + (p.current + [w]) == (Concat(p.closed) + p.current) + [w];
    } else {
      ConcatSnoc(p.closed, p.current);
      assert AllWords([w]);
    }
  }

  lemma {:induction false} PackKeepsWords(words: seq<string>, maxLength: int)
    requires AllWords(words)
    ensures KeepsWords(words, Pack(words, maxLength))
    decreases |words|
  {
    if words != [] {
      var init, w := words[..|words| - 1], words[|words| - 1];
      assert words == init + [w];
      PackKeepsWords(init, maxLength);
      KeepsWordsStep(init, w, maxLength, Pack(init, maxLength));
    }
  }

  lemma EmptyOnlyFirstStep(words: seq<string>, w: string, maxLength: int, p: Packing)
    requires EmptyOnlyFirst(words, maxLength, p)
    requires words == [] ==> p == Packing([], [])
    ensures EmptyOnlyFirst(words + [w], maxLength, Step(p, w, maxLength))
  {
    assert words != [] ==> (words + [w])[0] == words[0];
    assert words == [] ==> JoinWith(p.current + [w], ' ') == w;
  }

  lemma {:induction false} PackEmptyOnlyFirst(words: seq<string>, maxLength: int)
    ensures EmptyOnlyFirst(words, maxLength, Pack(words, maxLength))
    decreases |words|
  {
    if words != [] {
      var init, w := words[..|words| - 1], words[|words| - 1];
      assert words == init + [w];
      PackEmptyOnlyFirst(init, maxLength);
      EmptyOnlyFirstStep(init, w, maxLength, Pack(init, maxLength));
    }
  }

  lemma BoundedStep(w: string, maxLength: int, p: Packing)
    requires Bounded(maxLength, p)
    ensures Bounded(maxLength, Step(p, w, maxLength))
  {
  }

  lemma {:induction false} PackBounded(words: seq<string>, maxLength: int)
    ensures Bounded(maxLength, Pack(words, maxLength))
    decreases |words|
  {
    if words != [] {
      PackBounded(words[..|words| - 1], maxLength);
      BoundedStep(words[|words| - 1], maxLength, Pack(words[..|words| - 1], maxLength));
    }
  }

  lemma GreedyStep(w: string, maxLength: int, p: Packing)
    requires Greedy(maxLength, p)
    requires p.closed != [] ==> p.current != []
    ensures Greedy(maxLength, Step(p, w, maxLength))
  {
    if |JoinWith(p.current + [w], ' ')| >= maxLength {
      var c := p.closed + [p.current];
      forall k | 0 <= k < |c| - 1
        ensures ClosedBeforeNext(c, k, maxLength)
      {
        if k < |p.closed| - 1 {
          assert ClosedBeforeNext(p.closed, k, maxLength);
        }
      }
    }
  }

  lemma {:induction false} PackGreedy(words: seq<string>, maxLength: int)
    ensures Greedy(maxLength, Pack(words, maxLength))
    decreases |words|
  {
    if words != [] {
      var init := words[..|words| - 1];
      PackGreedy(init, maxLength);
      PackEmptyOnlyFirst(init, maxLength);
      GreedyStep(words[|words| - 1], maxLength, Pack(init, maxLength));
    }
  }

  /** The word groups of the chunks hold exactly the words of the text, in
      order. */
  lemma GroupsKeepWords(words: seq<string>, maxLength: int)
    requires AllWords(words)
    ensures Concat(Groups(words, maxLength)) == words
    ensures forall k :: 0 <= k < |Groups(words, maxLength)| ==> AllWords(Groups(words, maxLength)[k])
  {
    PackKeepsWords(words, maxLength);
    var p := Pack(words, maxLength);
    if p.current != [] {
      ConcatSnoc(p.closed, p.current);
      var gs := p.closed + [p.current];
      forall k | 0 <= k < |gs|
        ensures AllWords(gs[k])
      {
        if k < |p.closed| {
          assert gs[k] == p.closed[k];
        }
      }
    }
  }

  /** There are no groups exactly when there are no words, and only the first
      group can be empty: exactly when the first word alone reaches
      maxLength. */
  lemma GroupsEmptyOnlyFirst(words: seq<string>, maxLength: int)
    ensures Groups(words, maxLength) == [] <==> words == []
    ensures forall k :: 0 < k < |Groups(words, maxLength)| ==> Groups(words, maxLength)[k] != []
    ensures Groups(words, maxLength) != [] ==> (Groups(words, maxLength)[0] == [] <==> |words[0]| >= maxLength)
  {
    PackEmptyOnlyFirst(words, maxLength);
    var p := Pack(words, maxLength);
    if p.current != [] {
      var gs := p.closed + [p.current];
      forall k | 0 < k < |gs|
        ensures gs[k] != []
      {
        if k < |p.closed| {
          assert gs[k] == p.closed[k];
        }
      }
      if p.closed != [] {
        assert gs[0] == p.closed[0];
      }
    }
  }

  /** A group of two or more words, joined by spaces, is shorter than
      maxLength. */
  lemma GroupsBounded(words: seq<string>, maxLength: int)
    ensures forall k :: 0 <= k < |Groups(words, maxLength)| && |Groups(words, maxLength)[k]| >= 2 ==>
      |JoinWith(Groups(words, maxLength)[k], ' ')| < maxLength
  {
    PackBounded(words, maxLength);
    var p := Pack(words, maxLength);
    if p.current != [] {
      var gs := p.closed + [p.current];
      forall k | 0 <= k < |gs| && |gs[k]| >= 2
        ensures |JoinWith(gs[k], ' ')| < maxLength
      {
        if k < |p.closed| {
          assert gs[k] == p.closed[k];
        }
      }
    }
  }

  /** Each group but the last was closed because the first word of the next
      would not fit in it. */
  lemma GroupsGreedy(words: seq<string>, maxLength: int)
    ensures forall k :: 0 <= k < |Groups(words, maxLength)| - 1 ==> ClosedBeforeNext(Groups(words, maxLength), k, maxLength)
  {
    PackGreedy(words, maxLength);
    PackEmptyOnlyFirst(words, maxLength);
    var p := Pack(words, maxLength);
    if p.current != [] {
      var gs := p.closed + [p.current];
      forall k | 0 <= k < |gs| - 1
        ensures ClosedBeforeNext(gs, k, maxLength)
      {
        if k < |p.closed| - 1 {
          assert ClosedBeforeNext(p.closed, k, maxLength);
        }
      }
    }
  }

  lemma {:induction false} WordsOfAllJoinEach(gs: seq<seq<string>>)
    requires forall k :: 0 <= k < |gs| ==> AllWords(gs[k])
    ensures WordsOfAll(JoinEach(gs)) == Concat(gs)
    decreases |gs|
  {
    if gs != [] {
      var init := gs[..|gs| - 1];
      WordsOfAllJoinEach(init);
      assert JoinEach(gs)[..|gs| - 1] == JoinEach(init);
      WordsOfJoinedWords(gs[|gs| - 1], ' ');
    }
  }

  /** The properties of chunk_text, stated on the chunks: the words of the
      chunks, taken in order, are the words of the text; there are no chunks
      exactly when the text is all whitespace; only the first chunk can be
      empty, exactly when the first word alone reaches maxLength; a chunk of
      two or more words is shorter than maxLength; and each chunk was emitted
      because the next chunk's first word would not fit in it. */
  lemma ChunksProperties(words: seq<string>, maxLength: int)
    requires AllWords(words)
    ensures var cs := Chunks(words, maxLength);
      && WordsOfAll(cs) == words
      && (cs == [] <==> words == [])
      && (forall k :: 0 < k < |cs| ==> Words(cs[k]) != [])
      && (cs != [] ==> (cs[0] == "" <==> |words[0]| >= maxLength))
      && (forall k :: 0 <= k < |cs| && |Words(cs[k])| >= 2 ==> |cs[k]| < maxLength)
      && (forall k :: 0 <= k < |cs| - 1 ==> ClosedBeforeNext(WordsOfEach(cs), k, maxLength))
  {
    GroupsKeepWords(words, maxLength);
    GroupsEmptyOnlyFirst(words, maxLength);
    GroupsBounded(words, maxLength);
    GroupsGreedy(words, maxLength);
    var gs := Groups(words, maxLength);
    var cs := Chunks(words, maxLength);
    WordsOfAllJoinEach(gs);
    forall k | 0 <= k < |gs|
      ensures Words(cs[k]) == gs[k]
    {
      WordsOfJoinedWords(gs[k], ' ');
    }
    assert WordsOfEach(cs) == gs;
    if gs != [] && gs[0] != [] {
      assert |cs[0]| >= |gs[0][|gs[0]| - 1]| > 0;
    }
  }

  /** ChunksProperties for the words of a text. */
  lemma ChunksOfText(text: string, maxLength: int)
    ensures var cs := Chunks(Words(text), maxLength);
      && WordsOfAll(cs) == Words(text)
      && (cs == [] <==> AllSpace(text))
      && (forall k :: 0 < k < |cs| ==> Words(cs[k]) != [])
      && (cs != [] ==> (cs[0] == "" <==> |Words(text)[0]| >= maxLength))
      && (forall k :: 0 <= k < |cs| && |Words(cs[k])| >= 2 ==> |cs[k]| < maxLength)
      && (forall k :: 0 <= k < |cs| - 1 ==> ClosedBeforeNext(WordsOfEach(cs), k, maxLength))
  {
    ChunksProperties(Words(text), maxLength);
  }

  /** chunk_text(text, maxLength) as a loop over the words, as the engine
      runs it. No word of the text is lost, duplicated or reordered; a chunk
      of two or more words is shorter than maxLength; only the first chunk
      can be empty, exactly when the first word alone reaches maxLength; and
      each chunk was closed only because the next chunk's first word would
      not fit in it. */
  method ChunkText(text: string, maxLength: int) returns (chunks: seq<string>)
    ensures chunks == Chunks(Words(text), maxLength)
    ensures WordsOfAll(chunks) == Words(text)
    ensures chunks == [] <==> AllSpace(text)
    ensures forall k :: 0 < k < |chunks| ==> Words(chunks[k]) != []
    ensures chunks != [] ==> (chunks[0] == "" <==> |Words(text)[0]| >= maxLength)
    ensures forall k :: 0 <= k < |chunks| && |Words(chunks[k])| >= 2 ==> |chunks[k]| < maxLength
    ensures forall k :: 0 <= k < |chunks| - 1 ==> ClosedBeforeNext(WordsOfEach(chunks), k, maxLength)
  {
    var words := Words(text);
    chunks := [];
    var current: seq<string> := [];
    ghost var p := Packing([], []);
    for i := 0 to |words|
      invariant p == Pack(words[..i], maxLength)
      invariant chunks == JoinEach(p.closed) && current == p.current
    {
      var w := words[i];
      PackPrefix(words, i, maxLength);
      if |JoinWith(current + [w], ' ')| < maxLength {
        current := current + [w];
      } else {
        JoinEachSnoc(p.closed, current);
        chunks := chunks + [JoinWith(current, ' ')];
        current := [w];
      }
      p := Step(p, w, maxLength);
    }
    assert words[..|words|] == words;
    if current != [] {
      JoinEachSnoc(p.closed, current);
      chunks := chunks + [JoinWith(current, ' ')];
    }
    assert chunks == Chunks(words, maxLength);
    ChunksOfText(text, maxLength);
  }

  // ----------------------------------------------------------- generate_bulk

  const QuestionsPerBatch := 20

  /** The number of full batches: range(total // 20) runs total // 20 times,
      and not at all when that floor quotient is negative. */
  function FullBatches(total: int): nat
  {
    if total < 0 then 0 else total / QuestionsPerBatch
  }

  /** total % 20 with Python's floor semantics; for the positive divisor 20,
      Dafny's Euclidean remainder is the same number. */
  function Remainder(total: int): (r: nat)
    ensures r < QuestionsPerBatch
  {
    total % QuestionsPerBatch
  }

  /** The question counts generate_bulk asks the model for, one per call. */
  function BatchSizes(total: int): (sizes: seq<nat>)
    ensures |sizes| == FullBatches(total) + (if Remainder(total) > 0 then 1 else 0)
    ensures forall k :: 0 <= k < |sizes| ==> 1 <= sizes[k] <= QuestionsPerBatch
    ensures forall k :: 0 <= k < FullBatches(total) ==> sizes[k] == QuestionsPerBatch
    ensures Remainder(total) > 0 ==> sizes[|sizes| - 1] == Remainder(total)
  {
    seq(FullBatches(total), _ => QuestionsPerBatch)
      + (if Remainder(total) > 0 then [Remainder(total)] else [])
  }

  function Sum(xs: seq<nat>): nat
    decreases |xs|
  {
    if xs == [] then 0 else Sum(xs[..|xs| - 1]) + xs[|xs| - 1]
  }

  lemma {:induction false} SumOfFullBatches(n: nat)
    ensures Sum(seq(n, _ => QuestionsPerBatch)) == QuestionsPerBatch * n
    decreases n
  {
    if n > 0 {
      SumOfFullBatches(n - 1);
      assert seq(n, _ => QuestionsPerBatch)[..n - 1] == seq(n - 1, _ => QuestionsPerBatch);
    }
  }

  /** For a non-negative total the requested counts add up to exactly the
      total, in ceil(total / 20) calls. */
  lemma BatchSizesCoverTotal(total: int)
    requires total >= 0
    ensures Sum(BatchSizes(total)) == total
    ensures |BatchSizes(total)| == (total + QuestionsPerBatch - 1) / QuestionsPerBatch
  {
    var full := seq(FullBatches(total), _ => QuestionsPerBatch);
    SumOfFullBatches(FullBatches(total));
    if Remainder(total) > 0 {
      assert (full + [Remainder(total)])[..|full|] == full;
    } else {
      assert BatchSizes(total) == full;
    }
  }

  /** Floor division at work: a negative total makes no full batch but still
      one call for its (non-negative) remainder, e.g. -5 asks for 15. */
  lemma NegativeTotalAsksForRemainder(total: int)
    requires total < 0
    ensures BatchSizes(total) == if total % 20 > 0 then [total % 20] else []
    ensures BatchSizes(-5) == [15]
  {
  }

  /** The chat requests generate_bulk sends, in order: one per batch size, in
      the requested mode; none at all for a mode it does not know. */
  function BulkCalls(content: string, total: int, mode: string): (calls: seq<ChatRequest>)
  {
    if IsMode(mode) then
      var sizes := BatchSizes(total);
      seq(|sizes|, k requires 0 <= k < |sizes| => UserRequest(ModePrompt(mode, content, sizes[k])))
    else []
  }

  /** The replies to a run of calls: the k-th call gets llm(k, its prompt). */
  function Replies(llm: Llm, calls: seq<ChatRequest>): (rs: seq<string>)
    ensures |rs| == |calls|
    ensures forall k :: 0 <= k < |calls| ==> rs[k] == llm(k, calls[k].prompt)
  {
    seq(|calls|, k requires 0 <= k < |calls| => llm(k, calls[k].prompt))
  }

  /** full_output: every reply in order, each reply to one of the first
      fullBatches calls followed by a blank line ("\n\n"), the reply to the
      remainder call by nothing. */
  function BulkText(replies: seq<string>, fullBatches: nat): string
    decreases |replies|
  {
    if replies == [] then ""
    else
      BulkText(replies[..|replies| - 1], fullBatches) + replies[|replies| - 1]
        + (if |replies| - 1 < fullBatches then "\n\n" else "")
  }

  /** What generate_bulk returns or raises. */
  function BulkResult(content: string, total: int, mode: string, llm: Llm): Result<string, EngineError>
  {
    if BatchSizes(total) == [] then Ok("")
    else if !IsMode(mode) then Err(ModeError)
    else Ok(BulkText(Replies(llm, BulkCalls(content, total, mode)), FullBatches(total)))
  }

  /** The mode is checked only when a call is about to be made: an unknown mode
      raises ValueError exactly when the total asks for at least one call (20
      or more, or a total that is not a multiple of 20), and never reaches the
      model; with a total of 0 any mode returns "" without a call. */
  lemma UnknownModeFailsLazily(content: string, total: int, mode: string, llm: Llm)
    requires !IsMode(mode)
    ensures BulkCalls(content, total, mode) == []
    ensures BulkResult(content, total, mode, llm).Err? <==> total >= QuestionsPerBatch || total % QuestionsPerBatch != 0
    ensures total == 0 ==> BulkResult(content, total, mode, llm) == Ok("")
  {
  }

  /** In a known mode there is one call per batch size, asking for that many
      questions, and the output is the replies with each full batch's reply
      followed by a blank line. */
  lemma KnownModeCallsPerBatch(content: string, total: int, mode: string, llm: Llm)
    requires IsMode(mode)
    ensures var calls, sizes := BulkCalls(content, total, mode), BatchSizes(total);
      && |calls| == |sizes|
      && (forall k :: 0 <= k < |calls| ==> calls[k] == UserRequest(ModePrompt(mode, content, sizes[k])))
      && BulkResult(content, total, mode, llm).Ok?
  {
  }

  lemma BulkTextSnoc(replies: seq<string>, r: string, fullBatches: nat)
    ensures |replies| < fullBatches ==>
      BulkText(replies + [r], fullBatches) == BulkText(replies, fullBatches) + r + "\n\n"
    ensures |replies| >= fullBatches ==>
      BulkText(replies + [r], fullBatches) == BulkText(replies, fullBatches) + r
  {
    assert (replies + [r])[..|replies|] == replies;
    assert BulkText(replies, fullBatches) + r + "" == BulkText(replies, fullBatches) + r;
  }

  lemma RepliesSnoc(llm: Llm, calls: seq<ChatRequest>, c: ChatRequest)
    ensures Replies(llm, calls + [c]) == Replies(llm, calls) + [llm(|calls|, c.prompt)]
  {
  }

  /** How the floor quotient and remainder the loop uses relate to the
      calls BulkCalls and BulkResult describe. */
  lemma BulkShape(content: string, total: int, mode: string)
    ensures total / QuestionsPerBatch <= FullBatches(total)
    ensures FullBatches(total) > 0 ==> total / QuestionsPerBatch == FullBatches(total)
    ensures total / QuestionsPerBatch < FullBatches(total) ==> FullBatches(total) == 0
    ensures total % QuestionsPerBatch == Remainder(total)
    ensures IsMode(mode) ==> |BulkCalls(content, total, mode)| == FullBatches(total) + (if Remainder(total) > 0 then 1 else 0)
    ensures !IsMode(mode) ==> BulkCalls(content, total, mode) == []
    ensures (FullBatches(total) > 0 || Remainder(total) > 0) <==> BatchSizes(total) != []
  {
  }

  /** The calls and the output of generate_bulk over one more batch. */
  lemma BulkPrefix(content: string, total: int, mode: string, llm: Llm, i: nat)
    requires IsMode(mode)
    requires i < |BatchSizes(total)|
    ensures var calls, full := BulkCalls(content, total, mode), FullBatches(total);
      var prompt := ModePrompt(mode, content, BatchSizes(total)[i]);
      && calls[..i + 1] == calls[..i] + [UserRequest(prompt)]
      && (i < full ==>
            BulkText(Replies(llm, calls[..i + 1]), full) == BulkText(Replies(llm, calls[..i]), full) + llm(i, prompt) + "\n\n")
      && (i >= full ==>
            BulkText(Replies(llm, calls[..i + 1]), full) == BulkText(Replies(llm, calls[..i]), full) + llm(i, prompt))
  {
    var calls := BulkCalls(content, total, mode);
    var request := UserRequest(ModePrompt(mode, content, BatchSizes(total)[i]));
    assert calls[..i + 1] == calls[..i] + [request];
    RepliesSnoc(llm, calls[..i], request);
    BulkTextSnoc(Replies(llm, calls[..i]), llm(i, request.prompt), FullBatches(total));
  }

  /** generate_bulk(content, total, mode) as the engine runs it: total // 20
      calls for 20 questions each, then one call for total % 20 questions when
      that is positive, each reply appended to the output (full batches with a
      blank line after them). The mode is checked at the first call, so an
      unknown mode raises before any call, and only if a call is due. */
  method GenerateBulk(content: string, totalQuestions: int, mode: string, llm: Llm)
    returns (output: Result<string, EngineError>, calls: seq<ChatRequest>)
    ensures calls == BulkCalls(content, totalQuestions, mode)
    ensures output == BulkResult(content, totalQuestions, mode, llm)
  {
    var questionsPerBatch := QuestionsPerBatch;
    var fullOutput := "";
    var batches := totalQuestions / questionsPerBatch;
    var remainder := totalQuestions % questionsPerBatch;
    ghost var full := FullBatches(totalQuestions);
    ghost var expected := BulkCalls(content, totalQuestions, mode);
    BulkShape(content, totalQuestions, mode);
    calls := [];

    var i := 0;
    while i < batches
      invariant 0 <= i <= full
      invariant i > 0 ==> IsMode(mode)
      invariant i <= |expected| && calls == expected[..i]
      invariant fullOutput == BulkText(Replies(llm, calls), full)
    {
      var prompt := SelectPrompt(mode, content, questionsPerBatch);
      if prompt.Err? {
        return Err(prompt.error), calls;
      }
      BulkPrefix(content, totalQuestions, mode, llm, i);
      var reply := llm(|calls|, prompt.value);
      calls := calls + [UserRequest(prompt.value)];
      fullOutput := fullOutput + reply + "\n\n";
      i := i + 1;
    }

    if remainder > 0 {
      var prompt := SelectPrompt(mode, content, remainder);
      if prompt.Err? {
        return Err(prompt.error), calls;
      }
      BulkPrefix(content, totalQuestions, mode, llm, i);
      var reply := llm(|calls|, prompt.value);
      calls := calls + [UserRequest(prompt.value)];
      fullOutput := fullOutput + reply;
    }
    assert calls == expected;
    output := Ok(fullOutput);
  }

  // ------------------------------------------------------------- process_pdf

  /** The content process_pdf hands to the prompts: the chunks of the
      extracted text joined by newlines. */
  function FullContent(text: string): string
  {
    JoinWith(Chunks(Words(text), DefaultMaxLength), '\n')
  }

  /** Re-chunking changes only the whitespace: the model is shown exactly the
      words of the extracted text, in order. */
  lemma FullContentKeepsWords(text: string)
    ensures Words(FullContent(text)) == Words(text)
  {
    ChunksProperties(Words(text), DefaultMaxLength);
    WordsOfJoin(Chunks(Words(text), DefaultMaxLength), '\n');
  }

  /** process_pdf over the text extracted from the uploaded PDF: the exact
      (case-sensitive) type "summary" makes one summary call whose reply is
      the result; "quiz" and "bubblesheet" run generate_bulk in that mode;
      any other type raises ValueError without a call. */
  method ProcessPdf(text: string, type_: string, questionCount: int, llm: Llm)
    returns (result: Result<string, EngineError>, calls: seq<ChatRequest>)
    ensures type_ == "summary" ==>
      && calls == [UserRequest(Summary(FullContent(text)))]
      && result == Ok(llm(0, Summary(FullContent(text))))
    ensures IsMode(type_) ==>
      && calls == BulkCalls(FullContent(text), questionCount, type_)
      && result == BulkResult(FullContent(text), questionCount, type_, llm)
    ensures type_ != "summary" && !IsMode(type_) ==> calls == [] && result == Err(UnknownTypeError)
  {
    var chunks := ChunkText(text, DefaultMaxLength);
    var fullContent := JoinWith(chunks, '\n');

    if type_ == "summary" {
      var prompt := Summary(fullContent);
      calls := [UserRequest(prompt)];
      result := Ok(llm(0, prompt));
    } else if type_ == "quiz" || type_ == "bubblesheet" {
      result, calls := GenerateBulk(fullContent, questionCount, type_, llm);
    } else {
      result, calls := Err(UnknownTypeError), [];
    }
  }
}
