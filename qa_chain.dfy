/** Question answering: `build_context` numbers the retrieved chunks and
    joins as many as fit a length budget; `answer_question` wraps that
    context and the question in a fixed prompt, asks the chat model, and
    reports the distinct sources.  The search and the chat model are
    function parameters. */
module QaChain {
  import opened Values
  import opened Slicing

  /** One search hit: the chunk text and, when the hit carries one, its
      metadata dictionary. */
  datatype SearchResult = SearchResult(content: string, metadata: Option<map<string, MetaValue>>)

  const DefaultMaxContext: int := 3000

  /** `result.get("metadata", {}).get("source", "Unknown")`. */
  function SourceOf(r: SearchResult): MetaValue
  {
    match r.metadata
    case Some(m) => if "source" in m then m["source"] else Str("Unknown")
    case None => Str("Unknown")
  }

  /** The part for the `i`-th result, counted from 1:
      `[Source i: <source>]`, a newline, the content, a newline. */
  function Part(i: nat, r: SearchResult): string
  {
    "[Source " + NatToString(i) + ": " + Show(SourceOf(r)) + "]\n" + r.content + "\n"
  }

  /** Every result's part, numbered from 1 in result order. */
  function Parts(results: seq<SearchResult>): (ps: seq<string>)
    ensures |ps| == |results|
  {
    if results == [] then []
    else Parts(results[..|results| - 1]) + [Part(|results|, results[|results| - 1])]
  }

  lemma {:induction false} PartAt(results: seq<SearchResult>, k: nat)
    requires k < |results|
    ensures Parts(results)[k] == Part(k + 1, results[k])
    decreases |results|
  {
    var n := |results|;
    if k < n - 1 {
      PartAt(results[..n - 1], k);
    }
  }

  /** The total length of some strings. */
  function Sum(ps: seq<string>): nat
  {
    if ps == [] then 0 else Sum(ps[..|ps| - 1]) + |ps[|ps| - 1]|
  }

  /** Python's `"\n".join(ps)`. */
  function Join(ps: seq<string>): string
  {
    if |ps| == 0 then ""
    else if |ps| == 1 then ps[0]
    else Join(ps[..|ps| - 1]) + "\n" + ps[|ps| - 1]
  }

  /** The number of parts the loop keeps, counting from part `i` with
      `total` characters already kept: it stops at the first part that would
      take the running total past `budget`. */
  function FitFrom(parts: seq<string>, i: nat, total: int, budget: int): (n: nat)
    requires i <= |parts|
    ensures i <= n <= |parts|
    decreases |parts| - i
  {
    if i == |parts| || total + |parts[i]| > budget then i
    else FitFrom(parts, i + 1, total + |parts[i]|, budget)
  }

  function Fitting(parts: seq<string>, budget: int): nat
  {
    FitFrom(parts, 0, 0, budget)
  }

  /** What `build_context(results, max_context_length)` returns. */
  function Context(results: seq<SearchResult>, maxLen: int): string
  {
    var parts := Parts(results);
    Join(parts[..Fitting(parts, maxLen)])
  }

  /** `build_context`. */
  method BuildContext(results: seq<SearchResult>, maxLen: int) returns (context: string)
    ensures context == Context(results, maxLen)
    ensures results == [] ==> context == ""
  {
    ghost var parts := Parts(results);
    var contextParts: seq<string> := [];
    var total := 0;
    var i := 0;
    while i < |results|
      invariant 0 <= i <= |results|
      invariant contextParts == parts[..i]
      invariant total == Sum(contextParts)
      invariant FitFrom(parts, i, total, maxLen) == Fitting(parts, maxLen)
    {
      var part := Part(i + 1, results[i]);
      PartAt(results, i);
      if total + |part| > maxLen {
        assert FitFrom(parts, i, total, maxLen) == i;
        break;
      }
      TakeSnoc(parts, i);
      FitFromStep(parts, i, total, maxLen);
      contextParts := contextParts + [part];
      total := total + |part|;
      i := i + 1;
    }
    context := Join(contextParts);
  }

  lemma FitFromStep(parts: seq<string>, i: nat, total: int, budget: int)
    requires i < |parts| && total + |parts[i]| <= budget
    ensures FitFrom(parts, i, total, budget) == FitFrom(parts, i + 1, total + |parts[i]|, budget)
  {
  }

  lemma SumSnoc(ps: seq<string>, k: nat)
    requires k < |ps|
    ensures Sum(ps[..k + 1]) == Sum(ps[..k]) + |ps[k]|
  {
    assert ps[..k + 1][..k] == ps[..k];
  }

  lemma {:induction false} FitFromOverflow(parts: seq<string>, i: nat, budget: int)
    requires i <= |parts|
    requires forall j :: 0 < j <= i ==> Sum(parts[..j]) <= budget
    ensures var n := FitFrom(parts, i, Sum(parts[..i]), budget);
            && (forall j :: 0 < j <= n ==> Sum(parts[..j]) <= budget)
            && (n < |parts| ==> Sum(parts[..n + 1]) > budget)
    decreases |parts| - i
  {
    if i < |parts| {
      SumSnoc(parts, i);
      if Sum(parts[..i]) + |parts[i]| <= budget {
        FitFromOverflow(parts, i + 1, budget);
      }
    }
  }

  /** The kept parts are the longest run from the front whose lengths add up
      to at most the budget: every kept prefix is within it, and adding the
      first part left out would exceed it.  Parts are never skipped. */
  lemma FittingFirstOverflow(parts: seq<string>, budget: int)
    ensures Fitting(parts, budget) <= |parts|
    ensures forall j :: 0 < j <= Fitting(parts, budget) ==> Sum(parts[..j]) <= budget
    ensures Fitting(parts, budget) < |parts| ==> Sum(parts[..Fitting(parts, budget) + 1]) > budget
  {
    assert parts[..0] == [];
    FitFromOverflow(parts, 0, budget);
  }

  /** `"\n".join` adds one separator between consecutive parts. */
  lemma {:induction false} JoinLength(ps: seq<string>)
    ensures |ps| == 0 ==> Join(ps) == ""
    ensures |ps| > 0 ==> |Join(ps)| == Sum(ps) + |ps| - 1
  {
    if |ps| > 1 {
      JoinLength(ps[..|ps| - 1]);
    } else if |ps| == 1 {
      assert ps[..0] == [];
    }
  }

  /** Part `k` appears in the joined string at offset `Sum(ps[..k]) + k`,
      followed by a newline unless it is the last. */
  lemma {:induction false} JoinAt(ps: seq<string>, k: nat)
    requires k < |ps|
    ensures var at := Sum(ps[..k]) + k;
            && at + |ps[k]| <= |Join(ps)|
            && Join(ps)[at..at + |ps[k]|] == ps[k]
            && (k + 1 < |ps| ==> at + |ps[k]| < |Join(ps)| && Join(ps)[at + |ps[k]|] == '\n')
    decreases |ps|
  {
    var n := |ps|;
    var at := Sum(ps[..k]) + k;
    if n == 1 {
      assert ps[..0] == [];
    } else {
      var init := ps[..n - 1];
      assert Join(ps) == Join(init) + "\n" + ps[n - 1];
      JoinLength(init);
      if k == n - 1 {
        assert ps[..k] == init;
      } else {
        assert init[..k] == ps[..k];
        JoinAt(init, k);
        if k + 1 == n - 1 {
          SumSnoc(ps, k);
          assert ps[..k + 1] == init;
        }
      }
    }
  }

  /** The context's length: the kept parts' lengths plus one separator
      between each two, so up to `n - 1` characters beyond the budget when
      `n` parts are kept; nothing when the first part alone overflows. */
  lemma ContextLength(results: seq<SearchResult>, maxLen: int)
    ensures var n := Fitting(Parts(results), maxLen);
            && (n == 0 ==> Context(results, maxLen) == "")
            && (n > 0 ==> Sum(Parts(results)[..n]) <= maxLen)
            && (n > 0 ==> |Context(results, maxLen)| == Sum(Parts(results)[..n]) + n - 1)
            && (n > 0 ==> |Context(results, maxLen)| <= maxLen + n - 1)
    ensures 0 < |results| && |Part(1, results[0])| > maxLen ==> Context(results, maxLen) == ""
  {
    var parts := Parts(results);
    var n := Fitting(parts, maxLen);
    FittingFirstOverflow(parts, maxLen);
    JoinLength(parts[..n]);
    if 0 < |results| && |Part(1, results[0])| > maxLen {
      PartAt(results, 0);
      assert parts[..1] == [parts[0]];
      assert Sum(parts[..1]) == |parts[0]| by {
        SumSnoc(parts, 0);
        assert parts[..0] == [];
      }
    }
  }

  lemma KeptPartAt(parts: seq<string>, maxLen: int, k: nat)
    requires k < Fitting(parts, maxLen)
    ensures var kept := parts[..Fitting(parts, maxLen)];
            var at := Sum(parts[..k]) + k;
            && at + |parts[k]| <= |Join(kept)|
            && Join(kept)[at..at + |parts[k]|] == parts[k]
            && (k + 1 < |kept| ==> at + |parts[k]| < |Join(kept)| && Join(kept)[at + |parts[k]|] == '\n')
  {
    var kept := parts[..Fitting(parts, maxLen)];
    TakeTake(parts, |kept|, k);
    JoinAt(kept, k);
  }

  /** The `k`-th kept part, `[Source k+1: <source>]\n<content>\n`, sits in
      the context at offset `Sum(parts[..k]) + k`, followed by a newline
      separator unless it is the last one kept. */
  lemma ContextHoldsPart(results: seq<SearchResult>, maxLen: int, k: nat)
    requires k < Fitting(Parts(results), maxLen)
    ensures var part := Part(k + 1, results[k]);
            var at := Sum(Parts(results)[..k]) + k;
            var context := Context(results, maxLen);
            && at + |part| <= |context|
            && context[at..at + |part|] == part
            && (k + 1 < Fitting(Parts(results), maxLen) ==> at + |part| < |context| && context[at + |part|] == '\n')
  {
    PartAt(results, k);
    KeptPartAt(Parts(results), maxLen, k);
  }

  /** With two hits that have empty content and source `"a"`, each part is
      `"[Source i: a]\n\n"`, 15 characters: both fit a budget of 30, and the
      separator makes the context 31 characters long. */
  lemma ContextExceedsBudget()
    ensures var r := SearchResult("", Some(map["source" := Str("a")]));
            |Context([r, r], 30)| == 31
  {
    var r := SearchResult("", Some(map["source" := Str("a")]));
    var parts := Parts([r, r]);
    PartAt([r, r], 0);
    PartAt([r, r], 1);
    assert NatToString(1) == "1" && NatToString(2) == "2";
    assert parts[0] == "[Source 1: a]\n\n" && parts[1] == "[Source 2: a]\n\n";
    assert FitFrom(parts, 2, 30, 30) == 2;
    assert FitFrom(parts, 1, 15, 30) == 2;
    assert Fitting(parts, 30) == 2;
    JoinLength(parts);
    assert Sum(parts) == 30 by {
      assert parts[..1][..0] == [];
      assert parts[..1] == [parts[0]];
    }
    assert parts[..2] == parts;
  }

  /** The corrected count of kept parts: part `i` is kept while the joined
      string, separators included, stays within `budget`. */
  function FitJoinedFrom(parts: seq<string>, i: nat, budget: int): (n: nat)
    requires i <= |parts|
    ensures i <= n <= |parts|
    decreases |parts| - i
  {
    if i == |parts| || |Join(parts[..i + 1])| > budget then i
    else FitJoinedFrom(parts, i + 1, budget)
  }

  function FitJoined(parts: seq<string>, budget: int): nat
  {
    FitJoinedFrom(parts, 0, budget)
  }

  /** What a `build_context` that counts the separators returns. */
  function ContextWithinBudget(results: seq<SearchResult>, maxLen: int): string
  {
    var parts := Parts(results);
    Join(parts[..FitJoined(parts, maxLen)])
  }

  lemma JoinSnoc(ps: seq<string>, p: string)
    ensures |Join(ps + [p])| == |Join(ps)| + (if ps == [] then 0 else 1) + |p|
  {
    assert (ps + [p])[..|ps|] == ps;
  }

  /** `build_context` with the separator charged: a part is kept only while
      the running total, one character per newline included, stays within
      the budget.  The context then never exceeds a non-negative budget. */
  method BuildContextWithinBudget(results: seq<SearchResult>, maxLen: int) returns (context: string)
    ensures context == ContextWithinBudget(results, maxLen)
    ensures 0 <= maxLen ==> |context| <= maxLen
    ensures results == [] ==> context == ""
  {
    ghost var parts := Parts(results);
    var contextParts: seq<string> := [];
    var total := 0;
    var i := 0;
    while i < |results|
      invariant 0 <= i <= |results|
      invariant contextParts == parts[..i]
      invariant total == |Join(contextParts)|
      invariant i == 0 || total <= maxLen
      invariant FitJoinedFrom(parts, i, maxLen) == FitJoined(parts, maxLen)
    {
      var part := Part(i + 1, results[i]);
      var separator := if i == 0 then 0 else 1;
      PartAt(results, i);
      JoinSnoc(contextParts, part);
      TakeSnoc(parts, i);
      if total + separator + |part| > maxLen {
        assert FitJoinedFrom(parts, i, maxLen) == i;
        break;
      }
      contextParts := contextParts + [part];
      total := total + separator + |part|;
      i := i + 1;
    }
    context := Join(contextParts);
  }

  lemma {:induction false} FitJoinedFromOverflow(parts: seq<string>, i: nat, budget: int)
    requires i <= |parts|
    requires forall j :: 0 < j <= i ==> |Join(parts[..j])| <= budget
    ensures var n := FitJoinedFrom(parts, i, budget);
            && (forall j :: 0 < j <= n ==> |Join(parts[..j])| <= budget)
            && (n < |parts| ==> |Join(parts[..n + 1])| > budget)
    decreases |parts| - i
  {
    if i < |parts| && |Join(parts[..i + 1])| <= budget {
      FitJoinedFromOverflow(parts, i + 1, budget);
    }
  }

  /** The corrected context keeps the longest run of parts from the front
      whose joined form fits the budget. */
  lemma FitJoinedFirstOverflow(parts: seq<string>, budget: int)
    ensures FitJoined(parts, budget) <= |parts|
    ensures forall j :: 0 < j <= FitJoined(parts, budget) ==> |Join(parts[..j])| <= budget
    ensures FitJoined(parts, budget) < |parts| ==> |Join(parts[..FitJoined(parts, budget) + 1])| > budget
  {
    FitJoinedFromOverflow(parts, 0, budget);
  }

  /** The fixed instruction at the head of every prompt. */
  const Instruction: string :=
    "You are a helpful assistant. Answer the question based ONLY on the provided context.\n"
    + "If the context doesn't contain the answer, say \"I don't have enough information to answer this question.\""

  /** The prompt `answer_question` sends. */
  function Prompt(context: string, question: string): string
  {
    Instruction + "\n\nContext:\n" + context + "\n\nQuestion: " + question + "\n\nAnswer:"
  }

  /** The prompt holds the instruction, the context and the question
      verbatim, at fixed offsets, and ends with `Answer:`. */
  lemma PromptLayout(context: string, question: string)
    ensures var p := Prompt(context, question);
            var c := |Instruction| + 11;
            var q := c + |context| + 12;
            && |p| == q + |question| + 9
            && p[..|Instruction|] == Instruction
            && p[c..c + |context|] == context
            && p[q..q + |question|] == question
            && p[q + |question|..] == "\n\nAnswer:"
  {
    var p := Prompt(context, question);
    var c := |Instruction| + 11;
    var q := c + |context| + 12;
    assert |"\n\nContext:\n"| == 11 && |"\n\nQuestion: "| == 12 && |"\n\nAnswer:"| == 9;
    assert p == Instruction + "\n\nContext:\n" + context + "\n\nQuestion: " + question + "\n\nAnswer:";
  }

  /** Given the length of the context, the prompt determines the context
      and the question. */
  lemma PromptDetermines(c1: string, q1: string, c2: string, q2: string)
    requires |c1| == |c2| && Prompt(c1, q1) == Prompt(c2, q2)
    ensures c1 == c2 && q1 == q2
  {
    PromptLayout(c1, q1);
    PromptLayout(c2, q2);
  }

  /** `list(set(xs))`, keeping each value at its first occurrence. */
  function Distinct<T(==, !new)>(xs: seq<T>): (r: seq<T>)
    ensures forall x :: x in r <==> x in xs
    ensures forall i, j :: 0 <= i < j < |r| ==> r[i] != r[j]
  {
    if xs == [] then []
    else
      var d := Distinct(xs[..|xs| - 1]);
      var x := xs[|xs| - 1];
      assert xs == xs[..|xs| - 1] + [x];
      if x in d then d else d + [x]
  }

  /** `[r.get("metadata", {}).get("source", "Unknown") for r in results]`. */
  function Sources(results: seq<SearchResult>): (ss: seq<MetaValue>)
    ensures |ss| == |results|
    ensures forall k :: 0 <= k < |results| ==> ss[k] == SourceOf(results[k])
  {
    seq(|results|, k requires 0 <= k < |results| => SourceOf(results[k]))
  }

  /** A value is among the sources exactly when some hit carries it as its
      source (or is a hit without one, for `Unknown`). */
  lemma SourcesMembers(results: seq<SearchResult>)
    ensures forall s :: s in Sources(results) <==> exists r :: r in results && SourceOf(r) == s
  {
    forall s | s in Sources(results)
      ensures exists r :: r in results && SourceOf(r) == s
    {
      var k :| 0 <= k < |results| && Sources(results)[k] == s;
      assert results[k] in results;
    }
    forall r | r in results
      ensures SourceOf(r) in Sources(results)
    {
      var k :| 0 <= k < |results| && results[k] == r;
      assert Sources(results)[k] == SourceOf(r);
    }
  }

  /** One chat message. */
  datatype Message = Message(role: string, content: string)

  /** The dictionary `answer_question` returns. */
  datatype Answer = Answer(answer: string, sources: seq<MetaValue>, contextUsed: string)

  /** The vector search: hits for a question and `top_k`. */
  type SearchService = (string, int) -> seq<SearchResult>

  /** The chat model: its reply to messages, given a model name and a
      temperature. */
  type ChatService = (string, seq<Message>, real) -> string

  /** `answer_question`: the context is built from the hits with the
      default budget (charging the separators, so that it stays within the
      budget), the single user message is the prompt over that context and
      the question, the answer is the chat model's reply, and the sources
      are the hits' sources without repetition. */
  method AnswerQuestion(question: string, topK: int, model: string, temperature: real,
                        search: SearchService, chat: ChatService)
    returns (record: Answer)
    ensures record.contextUsed == ContextWithinBudget(search(question, topK), DefaultMaxContext)
    ensures |record.contextUsed| <= DefaultMaxContext
    ensures record.answer == chat(model, [Message("user", Prompt(record.contextUsed, question))], temperature)
    ensures forall s :: s in record.sources <==> exists r :: r in search(question, topK) && SourceOf(r) == s
    ensures forall i, j :: 0 <= i < j < |record.sources| ==> record.sources[i] != record.sources[j]
    ensures record.contextUsed != "" ==> |record.sources| > 0
  {
    var results := search(question, topK);
    var context := BuildContextWithinBudget(results, DefaultMaxContext);
    var prompt := Prompt(context, question);
    var answer := chat(model, [Message("user", prompt)], temperature);
    var sources := Distinct(Sources(results));
    SourcesMembers(results);
    if context != "" {
      assert results != [];
      assert SourceOf(results[0]) in sources;
    }
    record := Answer(answer, sources, context);
  }
}
