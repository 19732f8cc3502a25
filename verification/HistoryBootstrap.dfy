/** The transcript handed to a fresh session: as many of the newest messages as a budget allows. */
module HistoryBootstrap {
  import opened Wrappers
  import opened Strings

  const PREAMBLE := "Continue this conversation using the transcript context below. The final section is the latest user request to answer now."
  const TRANSCRIPT_HEADER := "Transcript context:"
  const PROMPT_HEADER := "Latest user request (answer this now):"
  const GAP := "\n\n"

  function OmittedSummary(count: nat): string {
    "[" + Decimal(count) + " earlier message(s) omitted to stay within input limits.]"
  }

  /** A message with its embedded selections already cut out and its attachments summed up. */
  datatype Message = Message(fromAssistant: bool, text: string, attachments: Option<string>)

  function Block(m: Message): string {
    var role := if m.fromAssistant then "ASSISTANT" else "USER";
    if m.text != "" && m.attachments.Some? then role + ":\n" + m.text + "\n" + m.attachments.value
    else if m.text != "" then role + ":\n" + m.text
    else if m.attachments.Some? then role + ":\n" + m.attachments.value
    else role + ":\n(empty message)"
  }

  function Blocks(messages: seq<Message>): (r: seq<string>)
    ensures |r| == |messages| && forall i :: 0 <= i < |messages| ==> r[i] == Block(messages[i])
  {
    seq(|messages|, i requires 0 <= i < |messages| => Block(messages[i]))
  }

  function Join(parts: seq<string>): string {
    if parts == [] then "" else if |parts| == 1 then parts[0] else parts[0] + GAP + Join(parts[1..])
  }

  /** The blocks shown, headed by how many older ones are left out. */
  function TranscriptBody(shown: seq<string>, omitted: nat): string {
    if omitted == 0 then Join(shown)
    else if shown != [] then OmittedSummary(omitted) + GAP + Join(shown)
    else OmittedSummary(omitted)
  }

  /** The transcript of the k newest blocks. */
  function Body(blocks: seq<string>, k: nat): string
    requires k <= |blocks|
  {
    TranscriptBody(blocks[|blocks| - k..], |blocks| - k)
  }

  function Framed(body: string, prompt: string): string {
    PREAMBLE + GAP + TRANSCRIPT_HEADER + "\n" + body + GAP + PROMPT_HEADER + "\n" + prompt
  }

  /** finalizeWithPrompt */
  function FinalizeWithPrompt(body: string, prompt: string, maxChars: nat): (r: Option<string>)
    ensures r.Some? ==> |r.value| <= maxChars
  {
    var text := Framed(body, prompt);
    if |text| <= maxChars then Some(text) else None
  }

  predicate Fits(blocks: seq<string>, k: nat, prompt: string, budget: nat)
    requires k <= |blocks|
  {
    FinalizeWithPrompt(Body(blocks, k), prompt, budget).Some?
  }

  lemma FitsIs(blocks: seq<string>, k: nat, prompt: string, budget: nat)
    requires k <= |blocks|
    ensures var r := FinalizeWithPrompt(TranscriptBody(blocks[|blocks| - k..], |blocks| - k), prompt, budget);
            && (Fits(blocks, k, prompt, budget) <==> r.Some?)
            && (r.Some? ==> r.value == Framed(Body(blocks, k), prompt))
  {
    hide Framed, TranscriptBody;
  }

  // ----- what the text says -----

  /** Where the i-th block starts among the joined blocks. */
  function Offset(parts: seq<string>, i: nat): nat
    requires i <= |parts|
  {
    if i == 0 then 0 else |parts[0]| + 2 + Offset(parts[1..], i - 1)
  }

  /** In the text, the part stands at this place. */
  predicate StandsAt(text: string, at: nat, part: string) {
    at + |part| <= |text| && text[at..at + |part|] == part
  }

  lemma StandsBehind(front: string, text: string, at: nat, part: string)
    requires StandsAt(text, at, part)
    ensures StandsAt(front + text, |front| + at, part)
  {
    assert (front + text)[|front| + at..|front| + at + |part|] == text[at..at + |part|];
  }

  lemma StandsFirst(a: string, b: string, c: string)
    ensures StandsAt(a, 0, a) && StandsAt(a + b + c, 0, a) && StandsAt(a + b + c, |a|, b)
  {
  }

  lemma JoinUncons(parts: seq<string>)
    requires parts != []
    ensures Join(parts) == if |parts| == 1 then parts[0] else parts[0] + GAP + Join(parts[1..])
  {
    hide GAP;
  }

  lemma GapIs()
    ensures GAP == "\n\n" && |GAP| == 2
  {
  }

  /** Each block is there in full, in order, with an empty line between one and the next. */
  lemma {:induction false} JoinShows(parts: seq<string>, i: nat)
    requires i < |parts|
    ensures var at, joined := Offset(parts, i), Join(parts);
            && StandsAt(joined, at, parts[i])
            && (i + 1 < |parts| ==> StandsAt(joined, at + |parts[i]|, "\n\n"))
            && (i + 1 == |parts| ==> at + |parts[i]| == |joined|)
  {
    hide Join, StandsAt, GAP;
    var rest := parts[1..];
    JoinUncons(parts);
    GapIs();
    if |parts| > 1 {
      StandsFirst(parts[0], GAP, Join(rest));
      if i > 0 {
        JoinShows(rest, i - 1);
        var at := Offset(rest, i - 1);
        StandsBehind(parts[0] + GAP, Join(rest), at, parts[i]);
        if i + 1 < |parts| {
          StandsBehind(parts[0] + GAP, Join(rest), at + |parts[i]|, "\n\n");
        }
      }
    } else {
      StandsFirst(parts[0], "", "");
    }
  }

  function Speaker(m: Message): string {
    if m.fromAssistant then "ASSISTANT" else "USER"
  }

  /** What a message says: its text, then its attachments, or that it is empty. */
  function Said(m: Message): seq<string> {
    var parts := (if m.text != "" then [m.text] else []) + (if m.attachments.Some? then [m.attachments.value] else []);
    if parts == [] then ["(empty message)"] else parts
  }

  /** A block names who speaks and then says it, a line apart. */
  lemma BlockSays(m: Message)
    ensures var said := Said(m);
            Block(m) == Speaker(m) + ":\n" + said[0] + if |said| == 2 then "\n" + said[1] else ""
    ensures |Said(m)| <= 2
  {
    assert Speaker(m) + ":\n" + Said(m)[0] + "" == Speaker(m) + ":\n" + Said(m)[0];
  }

  lemma Around(a: string, b: string, c: string, d: string)
    ensures var t := a + b + c + d;
            && t[..|a|] == a && t[|a|..|a| + |b|] == b && t[|a| + |b|..|t| - |d|] == c && t[|t| - |d|..] == d
  {
  }

  /** The transcript stands below its header, and the request below its own, at the very end. */
  lemma FramedReads(body: string, prompt: string)
    ensures var text, head, between := Framed(body, prompt), PREAMBLE + "\n\n" + TRANSCRIPT_HEADER + "\n", "\n\n" + PROMPT_HEADER + "\n";
            && |text| == |head| + |body| + |between| + |prompt|
            && text[..|head|] == head && text[|head|..|head| + |body|] == body
            && text[|head| + |body|..|text| - |prompt|] == between && text[|text| - |prompt|..] == prompt
  {
    FramedIs(body, prompt);
    hide *;
    Around(PREAMBLE + "\n\n" + TRANSCRIPT_HEADER + "\n", body, "\n\n" + PROMPT_HEADER + "\n", prompt);
  }

  lemma FramedIs(body: string, prompt: string)
    ensures Framed(body, prompt) == (PREAMBLE + "\n\n" + TRANSCRIPT_HEADER + "\n") + body + ("\n\n" + PROMPT_HEADER + "\n") + prompt
  {
    hide PREAMBLE, TRANSCRIPT_HEADER, PROMPT_HEADER;
    assert GAP == "\n\n";
  }

  /** A transcript that leaves messages out says first how many; it ends with the newest blocks, joined. */
  lemma BodyReads(blocks: seq<string>, k: nat)
    requires k <= |blocks|
    ensures var body, joined := Body(blocks, k), Join(blocks[|blocks| - k..]);
            && |joined| <= |body| && body[|body| - |joined|..] == joined
            && (k == |blocks| ==> body == joined)
            && (k < |blocks| ==>
                  var line := "[" + Decimal(|blocks| - k) + " earlier message(s) omitted to stay within input limits.]";
                  body == if k == 0 then line else line + "\n\n" + joined)
  {
    hide Decimal;
    JoinNothing();
    hide Join;
  }

  lemma JoinNothing()
    ensures Join([]) == ""
  {
  }

  // ----- more messages take more room, except that the last one also frees the summary -----

  lemma {:induction false} JoinStep(parts: seq<string>)
    requires |parts| >= 2
    ensures |Join(parts)| == |parts[0]| + 2 + |Join(parts[1..])|
  {
  }

  lemma FramedLength(body: string, prompt: string)
    ensures |Framed(body, prompt)| == |Framed("", prompt)| + |body|
  {
  }

  lemma SummaryLength(count: nat)
    ensures |OmittedSummary(count)| == |OmittedSummary(0)| - 1 + |Decimal(count)|
  {
  }

  /** Including one more message, short of all of them, makes the text longer. */
  lemma BodyGrows(blocks: seq<string>, k: nat)
    requires 0 < k && k + 1 < |blocks|
    ensures |Body(blocks, k)| < |Body(blocks, k + 1)|
  {
    var n := |blocks|;
    var more := blocks[n - k - 1..];
    assert more[1..] == blocks[n - k..];
    JoinStep(more);
    DecimalGrowth(n - k - 1);
    SummaryLength(n - k);
    SummaryLength(n - k - 1);
  }

  lemma {:induction false} MisfitStays(blocks: seq<string>, j: nat, k: nat, prompt: string, budget: nat)
    requires 0 < j <= k < |blocks| && !Fits(blocks, j, prompt, budget)
    ensures !Fits(blocks, k, prompt, budget)
    decreases k
  {
    hide Framed, Body;
    if j < k {
      MisfitStays(blocks, j, k - 1, prompt, budget);
      BodyGrows(blocks, k - 1);
      FramedLength(Body(blocks, k), prompt);
      FramedLength(Body(blocks, k - 1), prompt);
    }
  }

  // ----- the builder -----

  datatype Bootstrap = Bootstrap(text: string, included: nat, omitted: nat, truncated: bool)

  function Reversed<T>(s: seq<T>): (r: seq<T>)
    ensures |r| == |s| && forall i :: 0 <= i < |s| ==> r[i] == s[|s| - 1 - i]
  {
    seq(|s|, i requires 0 <= i < |s| => s[|s| - 1 - i])
  }

  method NewestFirst(previous: seq<Message>) returns (newestFirst: seq<string>)
    ensures newestFirst == Reversed(Blocks(previous))
  {
    hide Block;
    var blocks := Blocks(previous);
    newestFirst := [];
    for index := |previous| downto 0
      invariant |newestFirst| == |previous| - index
      invariant forall i :: 0 <= i < |newestFirst| ==> newestFirst[i] == blocks[|previous| - 1 - i]
    {
      newestFirst := newestFirst + [Block(previous[index])];
    }
  }

  /** The limit rounded down, and at least 1; a limit that is not finite arrives as None. */
  function BudgetOf(maxChars: Option<real>): (budget: nat)
    ensures maxChars.None? || maxChars.value < 2.0 ==> budget == 1
    ensures maxChars.Some? && maxChars.value >= 1.0 ==> budget as real <= maxChars.value < budget as real + 1.0
  {
    match maxChars
    case None => 1
    case Some(x) => if x.Floor > 1 then x.Floor else 1
  }

  function PromptOnly(prompt: string, budget: nat): (r: string)
    ensures |r| <= budget && r <= prompt
    ensures |r| == |prompt| <==> |prompt| <= budget
  {
    if |prompt| <= budget then prompt else prompt[..budget]
  }

  /** The newest blocks are taken one by one until one does not fit. */
  method IncludeNewest(newestFirst: seq<string>, prompt: string, budget: nat) returns (included: seq<string>)
    ensures |included| <= |newestFirst| && included == newestFirst[..|included|]
    ensures forall j :: 0 < j <= |included| ==> Fits(Reversed(newestFirst), j, prompt, budget)
    ensures |included| < |newestFirst| ==> !Fits(Reversed(newestFirst), |included| + 1, prompt, budget)
  {
    hide TranscriptBody, Fits, FinalizeWithPrompt, Reversed;
    ghost var blocks := Reversed(newestFirst);
    included := [];
    for k := 0 to |newestFirst|
      invariant included == newestFirst[..k]
      invariant forall j :: 0 < j <= k ==> Fits(blocks, j, prompt, budget)
    {
      var next := included + [newestFirst[k]];
      var chronological := Reversed(next);
      var omitted := |newestFirst| - |chronological|;
      Newest(newestFirst, k + 1);
      assert next == newestFirst[..k + 1];
      FitsIs(blocks, k + 1, prompt, budget);
      if FinalizeWithPrompt(TranscriptBody(chronological, omitted), prompt, budget).None? {
        return;
      }
      included := next;
    }
  }

  lemma Newest(newestFirst: seq<string>, k: nat)
    requires k <= |newestFirst|
    ensures Reversed(newestFirst[..k]) == Reversed(newestFirst)[|newestFirst| - k..]
  {
  }

  /** The second loop ends in its first turn: dropping the oldest included message is never needed. */
  method Finish(included: seq<string>, blocks: seq<string>, prompt: string, budget: nat) returns (r: Bootstrap)
    requires |included| <= |blocks| && included == blocks[|blocks| - |included|..]
    requires included != [] ==> Fits(blocks, |included|, prompt, budget)
    ensures r.included == |included| && r.included + r.omitted == |blocks|
    ensures |r.text| <= budget
    ensures blocks != [] ==> (r.truncated <==> r.omitted > 0 || |prompt| > budget)
    ensures if Fits(blocks, |included|, prompt, budget) then r.text == Framed(Body(blocks, |included|), prompt)
            else included == [] && r.text == PromptOnly(prompt, budget)
  {
    hide TranscriptBody, Fits, FinalizeWithPrompt, PromptOnly, Framed;
    var promptOnly := PromptOnly(prompt, budget);
    var omitted := |blocks| - |included|;
    FitsIs(blocks, |included|, prompt, budget);
    var finalized := FinalizeWithPrompt(TranscriptBody(included, omitted), prompt, budget);
    if finalized.Some? {
      return Bootstrap(finalized.value, |included|, omitted, omitted > 0 || |prompt| != |promptOnly|);
    }
    if |included| == 0 {
      return Bootstrap(promptOnly, 0, |blocks|, true);
    }
    // Here the loop would drop the oldest included message and turn again.
    assert false;
  }

  /**
   * buildBootstrapInput. The text fits the budget and is framed around exactly the newest included
   * messages; no longer suffix short of all messages fits, and all are included exactly when they
   * fit and so does leaving out only the oldest.
   */
  method BuildBootstrapInput(previous: seq<Message>, prompt: string, maxChars: Option<real>) returns (r: Bootstrap)
    ensures |r.text| <= BudgetOf(maxChars)
    ensures r.included + r.omitted == |previous|
    ensures r.truncated <==> r.omitted > 0 || |prompt| > BudgetOf(maxChars)
    ensures var blocks, budget := Blocks(previous), BudgetOf(maxChars);
            && (forall k :: r.included < k < |previous| ==> !Fits(blocks, k, prompt, budget))
            && (previous != [] ==>
                  (r.omitted == 0 <==> Fits(blocks, |previous|, prompt, budget) && (|previous| == 1 || Fits(blocks, |previous| - 1, prompt, budget))))
            && (if previous != [] && Fits(blocks, r.included, prompt, budget) then r.text == Framed(Body(blocks, r.included), prompt)
                else r.included == 0 && r.text == PromptOnly(prompt, budget))
  {
    hide Framed, TranscriptBody, Block, PromptOnly, Fits, FinalizeWithPrompt, Reversed, BudgetOf, Body, Blocks;
    var budget := BudgetOf(maxChars);
    if |previous| == 0 {
      return Bootstrap(PromptOnly(prompt, budget), 0, 0, |PromptOnly(prompt, budget)| != |prompt|);
    }
    var newestFirst := NewestFirst(previous);
    var included := IncludeNewest(newestFirst, prompt, budget);
    ghost var blocks := Blocks(previous);
    Twice(blocks);
    Newest(newestFirst, |included|);
    var k := |included|;
    forall j | k < j < |previous|
      ensures !Fits(blocks, j, prompt, budget)
    {
      MisfitStays(blocks, k + 1, j, prompt, budget);
    }
    r := Finish(Reversed(included), Reversed(newestFirst), prompt, budget);
  }

  lemma Twice<T>(s: seq<T>)
    ensures Reversed(Reversed(s)) == s
  {
  }

  /**
   * A transcript can fit in full and still lose its oldest message: at exactly the budget the whole
   * takes, this happens whenever that message is shorter than the line that says it was left out.
   */
  lemma ShortOldestIsLost(blocks: seq<string>, prompt: string)
    requires |blocks| >= 2
    ensures var budget := |Framed(Body(blocks, |blocks|), prompt)|;
            && Fits(blocks, |blocks|, prompt, budget)
            && (Fits(blocks, |blocks| - 1, prompt, budget) <==> |blocks[0]| >= |OmittedSummary(1)|)
  {
    var n := |blocks|;
    assert blocks[n - n..] == blocks && blocks[n - (n - 1)..] == blocks[1..];
    JoinStep(blocks);
    FramedLength(Body(blocks, n), prompt);
    FramedLength(Body(blocks, n - 1), prompt);
  }

  /** Two empty messages are such a transcript: at the budget both take, the older one is left out. */
  lemma EmptyOldestIsLost(prompt: string)
    ensures var m := Message(false, "", None);
            var blocks := Blocks([m, m]);
            var budget := |Framed(Body(blocks, 2), prompt)|;
            Fits(blocks, 2, prompt, budget) && !Fits(blocks, 1, prompt, budget)
  {
    var m := Message(false, "", None);
    SummaryLength(1);
    assert |Block(m)| < |OmittedSummary(1)|;
    hide Block, OmittedSummary, Framed, Body, Fits;
    ShortOldestIsLost(Blocks([m, m]), prompt);
  }
}
