/** The pure helpers of the results page: the priority bucket of a score, the
    HTML escaping of task text, and the cards rendered for a response. */
module Frontend {
  import opened Tasks

  // ---------------------------------------------------------------------------
  // Priority buckets

  const HighThreshold: real := 1.5
  const MediumThreshold: real := 0.8

  datatype Priority = Low | Medium | High {
    function Rank(): int {
      match this
      case Low => 0
      case Medium => 1
      case High => 2
    }

    function ClassName(): string {
      match this
      case Low => "low-priority"
      case Medium => "medium-priority"
      case High => "high-priority"
    }
  }

  /** The bucket of a score; a score on a boundary belongs to the higher bucket. */
  function PriorityOf(score: real): (p: Priority)
    ensures p == High <==> score >= HighThreshold
    ensures p == Medium <==> MediumThreshold <= score < HighThreshold
    ensures p == Low <==> score < MediumThreshold
  {
    if score >= HighThreshold then High
    else if score >= MediumThreshold then Medium
    else Low
  }

  /** The CSS class of a score's bucket, as `getPriorityClass` returns it. */
  function PriorityClass(score: real): (c: string)
    ensures c == "high-priority" <==> score >= HighThreshold
    ensures c == "medium-priority" <==> MediumThreshold <= score < HighThreshold
    ensures c == "low-priority" <==> score < MediumThreshold
  {
    PriorityOf(score).ClassName()
  }

  /** A higher score never lands in a lower bucket. */
  lemma PriorityMonotone(a: real, b: real)
    requires a <= b
    ensures PriorityOf(a).Rank() <= PriorityOf(b).Rank()
  {
  }

  // ---------------------------------------------------------------------------
  // HTML escaping

  /** A global replacement: every occurrence of `c` replaced by `rep`. */
  function ReplaceAll(s: string, c: char, rep: string): (r: string)
    ensures c !in rep ==> c !in r
    ensures forall x :: x != c && x !in rep ==> (x in r <==> x in s)
  {
    if s == [] then []
    else (if s[0] == c then rep else [s[0]]) + ReplaceAll(s[1..], c, rep)
  }

  lemma {:induction false} ReplaceAllConcat(a: string, b: string, c: char, rep: string)
    ensures ReplaceAll(a + b, c, rep) == ReplaceAll(a, c, rep) + ReplaceAll(b, c, rep)
  {
    if a == [] {
      assert a + b == b;
    } else {
      assert (a + b)[0] == a[0] && (a + b)[1..] == a[1..] + b;
      ReplaceAllConcat(a[1..], b, c, rep);
    }
  }

  lemma {:induction false} ReplaceAllAbsent(s: string, c: char, rep: string)
    requires c !in s
    ensures ReplaceAll(s, c, rep) == s
  {
    if s != [] {
      ReplaceAllAbsent(s[1..], c, rep);
      assert s == [s[0]] + s[1..];
    }
  }

  lemma ReplaceAllSingle(x: char, c: char, rep: string)
    ensures ReplaceAll([x], c, rep) == if x == c then rep else [x]
  {
    assert [x][1..] == [];
  }

  /** The five replacements of `escapeHtml`, ampersand first. */
  function EscapeChain(s: string): string {
    var amp := ReplaceAll(s, '&', "&amp;");
    var lt := ReplaceAll(amp, '<', "&lt;");
    var gt := ReplaceAll(lt, '>', "&gt;");
    var quot := ReplaceAll(gt, '"', "&quot;");
    ReplaceAll(quot, '\'', "&#039;")
  }

  /** `escapeHtml`: the empty string for a missing or empty text. */
  function EscapeHtml(text: Option<string>): (r: string)
    ensures text.None? ==> r == ""
    ensures text.Some? ==> r == EscapeEach(text.value)
  {
    if !Present(text) then ""
    else
      EscapeChainIsPerCharacter(text.value);
      EscapeChain(text.value)
  }

  /** The entity of one character, the character itself when it needs none. */
  function EscapeChar(c: char): string {
    match c
    case '&' => "&amp;"
    case '<' => "&lt;"
    case '>' => "&gt;"
    case '"' => "&quot;"
    case '\'' => "&#039;"
    case _ => [c]
  }

  /** Text with no markup-significant character, other than entity ampersands. */
  predicate Inert(s: string) {
    '<' !in s && '>' !in s && '"' !in s && '\'' !in s
  }

  /** Character-by-character escaping: the reference the chain is measured
      against. The result holds no markup-significant character other than the
      ampersands of its entities, and is never shorter than the input. */
  function EscapeEach(s: string): (r: string)
    ensures Inert(r)
    ensures |r| >= |s|
    ensures s == [] <==> r == []
  {
    if s == [] then []
    else
      EscapeCharInert(s[0]);
      EscapeChar(s[0]) + EscapeEach(s[1..])
  }

  lemma EscapeCharInert(c: char)
    ensures Inert(EscapeChar(c)) && |EscapeChar(c)| >= 1
  {
  }

  /** The chain turns one character into its entity: after the replacement
      that produces an entity, no later replacement finds its character. */
  lemma EscapeChainOfChar(c: char)
    ensures EscapeChain([c]) == EscapeChar(c)
  {
    ReplaceAllSingle(c, '&', "&amp;");
    if c == '&' {
      EntityIsFinal("&amp;", 1);
    } else {
      ReplaceAllSingle(c, '<', "&lt;");
      if c == '<' {
        EntityIsFinal("&lt;", 2);
      } else {
        ReplaceAllSingle(c, '>', "&gt;");
        if c == '>' {
          EntityIsFinal("&gt;", 3);
        } else {
          ReplaceAllSingle(c, '"', "&quot;");
          if c == '"' {
            EntityIsFinal("&quot;", 4);
          } else {
            ReplaceAllSingle(c, '\'', "&#039;");
          }
        }
      }
    }
  }

  /** The characters replaced by the steps of the chain after step `k`
      (counting from 1) do not occur in `e`, so those steps leave `e` alone. */
  lemma EntityIsFinal(e: string, k: int)
    requires 1 <= k <= 4
    requires k < 2 ==> '<' !in e
    requires k < 3 ==> '>' !in e
    requires k < 4 ==> '"' !in e
    requires '\'' !in e
    ensures k < 2 ==> ReplaceAll(e, '<', "&lt;") == e
    ensures k < 3 ==> ReplaceAll(e, '>', "&gt;") == e
    ensures k < 4 ==> ReplaceAll(e, '"', "&quot;") == e
    ensures ReplaceAll(e, '\'', "&#039;") == e
  {
    if k < 2 { ReplaceAllAbsent(e, '<', "&lt;"); }
    if k < 3 { ReplaceAllAbsent(e, '>', "&gt;"); }
    if k < 4 { ReplaceAllAbsent(e, '"', "&quot;"); }
    ReplaceAllAbsent(e, '\'', "&#039;");
  }

  lemma EscapeChainConcat(a: string, b: string)
    ensures EscapeChain(a + b) == EscapeChain(a) + EscapeChain(b)
  {
    var amp := ReplaceAll(a + b, '&', "&amp;");
    ReplaceAllConcat(a, b, '&', "&amp;");
    var a1, b1 := ReplaceAll(a, '&', "&amp;"), ReplaceAll(b, '&', "&amp;");
    ReplaceAllConcat(a1, b1, '<', "&lt;");
    var a2, b2 := ReplaceAll(a1, '<', "&lt;"), ReplaceAll(b1, '<', "&lt;");
    ReplaceAllConcat(a2, b2, '>', "&gt;");
    var a3, b3 := ReplaceAll(a2, '>', "&gt;"), ReplaceAll(b2, '>', "&gt;");
    ReplaceAllConcat(a3, b3, '"', "&quot;");
    var a4, b4 := ReplaceAll(a3, '"', "&quot;"), ReplaceAll(b3, '"', "&quot;");
    ReplaceAllConcat(a4, b4, '\'', "&#039;");
  }

  /** The chain of global replacements escapes each character independently:
      because the ampersand goes first, no entity is escaped twice. */
  lemma {:induction false} EscapeChainIsPerCharacter(s: string)
    ensures EscapeChain(s) == EscapeEach(s)
  {
    if s != [] {
      assert s == [s[0]] + s[1..];
      EscapeChainConcat([s[0]], s[1..]);
      EscapeChainOfChar(s[0]);
      EscapeChainIsPerCharacter(s[1..]);
    }
  }

  /** Decodes the five entities that escaping produces. */
  function Unescape(s: string): string
    decreases |s|
  {
    if s == [] then []
    else if "&amp;" <= s then "&" + Unescape(s[5..])
    else if "&lt;" <= s then "<" + Unescape(s[4..])
    else if "&gt;" <= s then ">" + Unescape(s[4..])
    else if "&quot;" <= s then "\"" + Unescape(s[6..])
    else if "&#039;" <= s then "'" + Unescape(s[6..])
    else [s[0]] + Unescape(s[1..])
  }

  lemma UnescapeStep(c: char, rest: string)
    ensures Unescape(EscapeChar(c) + rest) == [c] + Unescape(rest)
  {
    var e := EscapeChar(c);
    var s := e + rest;
    assert s[..|e|] == e && s[|e|..] == rest;
    if c == '&' {
      assert "&amp;" <= s;
    } else if c == '<' {
      assert s[1] == 'l';
      assert "&lt;" <= s;
    } else if c == '>' {
      assert s[1] == 'g';
      assert "&gt;" <= s;
    } else if c == '"' {
      assert s[1] == 'q';
      assert "&quot;" <= s;
    } else if c == '\'' {
      assert s[1] == '#';
      assert "&#039;" <= s;
    } else {
      assert s[0] == c && s[1..] == rest;
    }
  }

  /** Escaping loses nothing: decoding the escaped text gives the text back. */
  lemma {:induction false} UnescapeEscape(s: string)
    ensures Unescape(EscapeEach(s)) == s
  {
    if s != [] {
      UnescapeStep(s[0], EscapeEach(s[1..]));
      UnescapeEscape(s[1..]);
      assert s == [s[0]] + s[1..];
    }
  }

  /** Two different texts never escape to the same markup. */
  lemma EscapeInjective(a: string, b: string)
    requires EscapeEach(a) == EscapeEach(b)
    ensures a == b
  {
    UnescapeEscape(a);
    UnescapeEscape(b);
  }

  // ---------------------------------------------------------------------------
  // Rendering the response

  /** The fields of a response task that the page reads. */
  datatype TaskView = TaskView(title: Option<string>, dueDate: Option<string>, score: real, explanation: Option<string>)

  /** One rendered card: its CSS classes, the escaped title, the score, the
      due-date text and the escaped explanation. */
  datatype Card = Card(cssClass: string, title: string, score: real, due: string, explanation: string)

  datatype Rendered = Placeholder(message: string) | Cards(cards: seq<Card>)

  const NoTasksMessage: string := "No tasks returned."
  const NoDateLabel: string := "No Date"

  /** The due date as shown: the date itself, or "No Date" when it is missing or empty. */
  function DueDisplay(dueDate: Option<string>): (d: string)
    ensures d != ""
    ensures Present(dueDate) ==> d == dueDate.value
    ensures !Present(dueDate) ==> d == NoDateLabel
  {
    if Present(dueDate) then dueDate.value else NoDateLabel
  }

  function CardFor(t: TaskView): Card {
    Card("task-card " + PriorityClass(t.score), EscapeHtml(t.title), t.score,
         DueDisplay(t.dueDate), EscapeHtml(t.explanation))
  }

  /** `renderResults`: a placeholder for an empty list, otherwise one
      card per task in response order. */
  function RenderResults(tasks: seq<TaskView>): (r: Rendered)
    ensures tasks == [] <==> r.Placeholder?
    ensures r.Placeholder? ==> r.message == NoTasksMessage
    ensures r.Cards? ==> |r.cards| == |tasks|
  {
    if tasks == [] then Placeholder(NoTasksMessage)
    else Cards(seq(|tasks|, i requires 0 <= i < |tasks| => CardFor(tasks[i])))
  }

  /** Every card carries its task's bucket and score, shows its due date or
      "No Date", and its title and explanation are inert markup that decodes
      back to the task's own text. */
  lemma CardsShowTasksFaithfully(tasks: seq<TaskView>, i: int)
    requires 0 <= i < |tasks|
    ensures var r := RenderResults(tasks);
            && r.Cards?
            && r.cards[i].cssClass == "task-card " + PriorityOf(tasks[i].score).ClassName()
            && Inert(r.cards[i].title) && Inert(r.cards[i].explanation)
            && Unescape(r.cards[i].title) == tasks[i].title.GetOr("")
            && Unescape(r.cards[i].explanation) == tasks[i].explanation.GetOr("")
            && r.cards[i].score == tasks[i].score
            && (Present(tasks[i].dueDate) ==> r.cards[i].due == tasks[i].dueDate.value)
            && (!Present(tasks[i].dueDate) ==> r.cards[i].due == NoDateLabel)
  {
    var t := tasks[i];
    if t.title.Some? {
      UnescapeEscape(t.title.value);
    }
    if t.explanation.Some? {
      UnescapeEscape(t.explanation.value);
    }
  }
}
