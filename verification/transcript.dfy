/**
 * The call-transcript parser of the chat view.  A raw transcript is split
 * into lines; blank lines are dropped; a line whose trimmed form starts with
 * `AI:` or `User:` opens a new message, and any other line continues the
 * open message on a new line.  Lines before the first speaker prefix are
 * discarded.
 */
module Transcript {
  import opened Wrappers
  import opened JsString
  import opened JsArray

  datatype Role = AI | User

  datatype Message = Message(role: Role, content: string)

  const AIPrefix: string := "AI:"
  const UserPrefix: string := "User:"

  /* ------------------------------------------------------------ one line */

  /** A line survives the blank-line filter when its trimmed form is non-empty. */
  predicate IsBlank(line: string) {
    Trim(line) == ""
  }

  /** A trimmed line opens a message when it starts with a speaker prefix. */
  predicate IsOpener(trimmed: string) {
    StartsWith(trimmed, AIPrefix) || StartsWith(trimmed, UserPrefix)
  }

  /** A raw line opens a message when its trimmed form does. */
  predicate OpensMessage(line: string) {
    IsOpener(Trim(line))
  }

  /**
   * The message an opening line starts: `AI:` is tested before `User:`, and
   * the content is the remainder after the prefix, trimmed again.
   */
  function Opening(trimmed: string): (m: Message)
    requires IsOpener(trimmed)
    ensures m.role == AI <==> StartsWith(trimmed, AIPrefix)
    ensures m.role == AI ==> m.content == Trim(trimmed[3..])
    ensures m.role == User ==> m.content == Trim(trimmed[5..])
    ensures IsTrimmed(m.content)
  {
    if StartsWith(trimmed, AIPrefix) then Message(AI, Trim(trimmed[|AIPrefix|..]))
    else Message(User, Trim(trimmed[|UserPrefix|..]))
  }

  /** A blank line never opens a message. */
  lemma BlankOpensNothing(line: string)
    requires IsBlank(line)
    ensures !OpensMessage(line)
  {
  }

  /** What the loop body makes of one line once it is trimmed. */
  datatype Line = Opener(message: Message) | Text(trimmed: string)

  function Classify(line: string): (l: Line)
    ensures l.Opener? <==> OpensMessage(line)
    ensures l.Opener? ==> l.message == Opening(Trim(line))
    ensures l.Text? ==> l.trimmed == Trim(line)
  {
    var trimmed := Trim(line);
    if IsOpener(trimmed) then Opener(Opening(trimmed)) else Text(trimmed)
  }

  /** One line after the blank-line filter: nothing, or its classification. */
  function LexLine(line: string): (r: seq<Line>)
    ensures |r| <= 1
    ensures r == [] <==> IsBlank(line)
  {
    if IsBlank(line) then [] else [Classify(line)]
  }

  /**
   * `lines.filter((line) => line.trim())`, with each surviving line
   * classified as the loop body will see it.
   */
  function Lex(lines: seq<string>): seq<Line> {
    FlatMap(lines, LexLine)
  }

  /** `m` with one more line of text. */
  function Continue(m: Message, trimmed: string): (r: Message)
    ensures r.role == m.role
    ensures StartsWith(r.content, m.content)
    ensures r.content[|m.content|..] == "\n" + trimmed
  {
    Message(m.role, m.content + "\n" + trimmed)
  }

  /**
   * A continuation adds its text as new lines of the message: splitting the
   * content on line feeds gives the old lines followed by the new ones.
   */
  lemma ContinueAddsLine(m: Message, trimmed: string)
    ensures Continue(m, trimmed).role == m.role
    ensures Split(Continue(m, trimmed).content, '\n') == Split(m.content, '\n') + Split(trimmed, '\n')
  {
    assert m.content + "\n" + trimmed == m.content + ['\n'] + trimmed;
    SplitAround(m.content, trimmed, '\n');
  }

  /* ------------------------------------------------------- the line fold */

  /** The `lines.forEach` loop state: messages pushed so far and the open one. */
  datatype Parser = Parser(messages: seq<Message>, current: Option<Message>)

  const Start: Parser := Parser([], None)

  /** The loop body for one non-blank line. */
  function Feed(p: Parser, l: Line): (r: Parser)
    ensures p.messages <= r.messages
    ensures |r.messages| == |p.messages| + 1 <==> l.Opener? && p.current.Some?
    ensures |r.messages| <= |p.messages| + 1
    ensures l.Opener? ==> r.current == Some(l.message)
    ensures l.Text? ==> (r.current.Some? <==> p.current.Some?)
    ensures l.Text? && p.current.Some? ==> r.current.value.role == p.current.value.role
  {
    match l
    case Opener(m) => Parser(p.messages + p.current.ToSeq(), Some(m))
    case Text(t) =>
      if p.current.Some? then Parser(p.messages, Some(Continue(p.current.value, t)))
      else p
  }

  function FeedAll(p: Parser, ls: seq<Line>): Parser
    decreases |ls|
  {
    if |ls| == 0 then p else FeedAll(Feed(p, ls[0]), ls[1..])
  }

  /** After the loop, the last open message is pushed too. */
  function Close(p: Parser): (r: seq<Message>)
    ensures p.messages <= r
    ensures |r| == |p.messages| + 1 <==> p.current.Some?
    ensures |r| <= |p.messages| + 1
    ensures p.current.Some? ==> r[|r| - 1] == p.current.value
  {
    p.messages + p.current.ToSeq()
  }

  /** Parsing of an already split transcript. */
  function ParseLines(lines: seq<string>): seq<Message> {
    Close(FeedAll(Start, Lex(lines)))
  }

  /** `parseTranscript(text)`. */
  function ParseTranscript(text: string): (r: seq<Message>)
    ensures text == "" ==> r == []
  {
    if text == "" then [] else ParseLines(Split(text, '\n'))
  }

  /* ------------------------------------------- the reference definition */

  /** The number of leading lines that do not open a message. */
  function ContinuationLength(ls: seq<Line>): (k: nat)
    ensures k <= |ls|
    ensures forall i :: 0 <= i < k ==> ls[i].Text?
    ensures k < |ls| ==> ls[k].Opener?
    decreases |ls|
  {
    if |ls| == 0 || ls[0].Opener? then 0
    else 1 + ContinuationLength(ls[1..])
  }

  /** The text that continuation lines add: each trimmed line after a newline. */
  function ContinuationText(ls: seq<Line>): string
    requires forall i :: 0 <= i < |ls| ==> ls[i].Text?
    decreases |ls|
  {
    if |ls| == 0 then "" else "\n" + ls[0].trimmed + ContinuationText(ls[1..])
  }

  /**
   * What the parser should produce, stated group by group: skip lines until
   * one opens a message; that message takes every following line up to the
   * next opener as continuation text.
   */
  function Grouped(ls: seq<Line>): seq<Message>
    decreases |ls|
  {
    if |ls| == 0 then []
    else match ls[0]
      case Text(_) => Grouped(ls[1..])
      case Opener(m) =>
        var rest := ls[1..];
        var k := ContinuationLength(rest);
        [Message(m.role, m.content + ContinuationText(rest[..k]))] + Grouped(rest[k..])
  }

  lemma {:induction false} FeedAllIdle(done: seq<Message>, ls: seq<Line>)
    ensures Close(FeedAll(Parser(done, None), ls)) == done + Grouped(ls)
    decreases |ls|, 1
  {
    if |ls| > 0 {
      match ls[0]
      case Text(_) =>
        FeedAllIdle(done, ls[1..]);
      case Opener(m) =>
        FeedAllOpen(done, m, ls[1..]);
        assert done + [] == done;
    }
  }

  lemma {:induction false} FeedAllOpen(done: seq<Message>, m: Message, ls: seq<Line>)
    ensures var k := ContinuationLength(ls);
            Close(FeedAll(Parser(done, Some(m)), ls))
            == done + [Message(m.role, m.content + ContinuationText(ls[..k]))] + Grouped(ls[k..])
    decreases |ls|, 1
  {
    if |ls| == 0 {
      assert m.content + "" == m.content;
    } else if ls[0].Opener? {
      FeedAllOpenThenOpener(done, m, ls);
      assert ContinuationLength(ls) == 0 && ls[0..] == ls;
      assert ContinuationText(ls[..0]) == "";
      assert Message(m.role, m.content + "") == m;
    } else {
      FeedAllOpenThenText(done, m, ls);
    }
  }

  lemma {:induction false} FeedAllOpenThenOpener(done: seq<Message>, m: Message, ls: seq<Line>)
    requires |ls| > 0 && ls[0].Opener?
    ensures Close(FeedAll(Parser(done, Some(m)), ls)) == done + [m] + Grouped(ls)
    decreases |ls|, 0
  {
    var h := ls[0].message;
    assert FeedAll(Parser(done, Some(m)), ls) == FeedAll(Parser(done + [m], Some(h)), ls[1..]);
    FeedAllOpen(done + [m], h, ls[1..]);
  }

  lemma {:induction false} FeedAllOpenThenText(done: seq<Message>, m: Message, ls: seq<Line>)
    requires |ls| > 0 && ls[0].Text?
    ensures var k := ContinuationLength(ls);
            Close(FeedAll(Parser(done, Some(m)), ls))
            == done + [Message(m.role, m.content + ContinuationText(ls[..k]))] + Grouped(ls[k..])
    decreases |ls|, 0
  {
    var k := ContinuationLength(ls);
    var t := ls[0].trimmed;
    var k' := ContinuationLength(ls[1..]);
    assert FeedAll(Parser(done, Some(m)), ls) == FeedAll(Parser(done, Some(Continue(m, t))), ls[1..]);
    FeedAllOpen(done, Continue(m, t), ls[1..]);
    ContinuationCons(ls);
    var c := Continue(m, t).content + ContinuationText(ls[1..][..k']);
    assert c == m.content + ContinuationText(ls[..k]);
  }

  /** Peeling the first continuation line off a run of them. */
  lemma ContinuationCons(ls: seq<Line>)
    requires |ls| > 0 && ls[0].Text?
    ensures var k := ContinuationLength(ls);
            var k' := ContinuationLength(ls[1..]);
            && k == 1 + k'
            && ls[k..] == ls[1..][k'..]
            && ContinuationText(ls[..k]) == "\n" + ls[0].trimmed + ContinuationText(ls[1..][..k'])
  {
    var k := ContinuationLength(ls);
    var k' := ContinuationLength(ls[1..]);
    assert ls[..k][1..] == ls[1..][..k'];
  }

  /** The fold agrees with the group-by-group reference on every input. */
  lemma ParseLinesIsGrouped(lines: seq<string>)
    ensures ParseLines(lines) == Grouped(Lex(lines))
  {
    FeedAllIdle([], Lex(lines));
  }

  /* ------------------------------------------------- speakers and counts */

  /** The role an opening line announces. */
  function SpeakerOf(line: string): Role
    requires OpensMessage(line)
  {
    if StartsWith(Trim(line), AIPrefix) then AI else User
  }

  /** The speaker a line announces, if it opens a message. */
  function SpeakerLine(line: string): seq<Role> {
    if OpensMessage(line) then [SpeakerOf(line)] else []
  }

  /** The speakers of the lines that open messages, in line order. */
  function Speakers(lines: seq<string>): seq<Role> {
    FlatMap(lines, SpeakerLine)
  }

  function Roles(ms: seq<Message>): (r: seq<Role>)
    ensures |r| == |ms|
    ensures forall i :: 0 <= i < |ms| ==> r[i] == ms[i].role
  {
    seq(|ms|, i requires 0 <= i < |ms| => ms[i].role)
  }

  /** The speakers of the classified lines that open messages. */
  function OpenerRoles(ls: seq<Line>): seq<Role>
    decreases |ls|
  {
    if |ls| == 0 then []
    else (if ls[0].Opener? then [ls[0].message.role] else []) + OpenerRoles(ls[1..])
  }

  lemma {:induction false} OpenerRolesAppend(xs: seq<Line>, ys: seq<Line>)
    ensures OpenerRoles(xs + ys) == OpenerRoles(xs) + OpenerRoles(ys)
    decreases |xs|
  {
    if |xs| == 0 {
      assert xs + ys == ys;
    } else {
      var zs := xs + ys;
      assert zs[0] == xs[0] && zs[1..] == xs[1..] + ys;
      OpenerRolesAppend(xs[1..], ys);
      var head := if xs[0].Opener? then [xs[0].message.role] else [];
      assert OpenerRoles(zs) == head + OpenerRoles(xs[1..] + ys);
      assert OpenerRoles(xs) == head + OpenerRoles(xs[1..]);
    }
  }

  lemma LexLineSpeaker(line: string)
    ensures OpenerRoles(LexLine(line)) == SpeakerLine(line)
  {
    if IsBlank(line) {
      BlankOpensNothing(line);
    } else {
      var c := Classify(line);
      assert LexLine(line) == [c];
      OpenerRolesSingle(c);
    }
  }

  lemma OpenerRolesSingle(l: Line)
    ensures OpenerRoles([l]) == if l.Opener? then [l.message.role] else []
  {
    assert [l][1..] == [];
  }

  lemma {:induction false} OpenerRolesFlatMap(lines: seq<string>, f: string -> seq<Line>, g: string -> seq<Role>)
    requires forall l :: OpenerRoles(f(l)) == g(l)
    ensures OpenerRoles(FlatMap(lines, f)) == FlatMap(lines, g)
    decreases |lines|
  {
    if |lines| > 0 {
      OpenerRolesFlatMap(lines[1..], f, g);
      OpenerRolesAppend(f(lines[0]), FlatMap(lines[1..], f));
    }
  }

  lemma LexSpeakers(lines: seq<string>)
    ensures OpenerRoles(Lex(lines)) == Speakers(lines)
  {
    forall l {
      LexLineSpeaker(l);
    }
    OpenerRolesFlatMap(lines, LexLine, SpeakerLine);
  }

  lemma RolesCons(m: Message, ms: seq<Message>)
    ensures Roles([m] + ms) == [m.role] + Roles(ms)
  {
  }

  lemma {:induction false} OpenerRolesSkipText(ls: seq<Line>, k: nat)
    requires k <= |ls|
    requires forall i :: 0 <= i < k ==> ls[i].Text?
    ensures OpenerRoles(ls) == OpenerRoles(ls[k..])
    decreases k
  {
    if k > 0 {
      OpenerRolesSkipText(ls[1..], k - 1);
      assert ls[1..][k - 1..] == ls[k..];
    }
  }

  lemma {:induction false} GroupedRoles(ls: seq<Line>)
    ensures Roles(Grouped(ls)) == OpenerRoles(ls)
    decreases |ls|
  {
    if |ls| > 0 {
      match ls[0]
      case Text(_) =>
        GroupedRoles(ls[1..]);
        assert OpenerRoles(ls) == OpenerRoles(ls[1..]);
      case Opener(m) =>
        var rest := ls[1..];
        var k := ContinuationLength(rest);
        var g := Message(m.role, m.content + ContinuationText(rest[..k]));
        assert Grouped(ls) == [g] + Grouped(rest[k..]);
        assert OpenerRoles(ls) == [m.role] + OpenerRoles(rest);
        assert OpenerRoles(rest) == Roles(Grouped(rest[k..])) by {
          OpenerRolesSkipText(rest, k);
          GroupedRoles(rest[k..]);
        }
        RolesCons(g, Grouped(rest[k..]));
    }
  }

  /**
   * One message per line that opens one, with the speakers in line order;
   * in particular the count of messages is the count of opening lines.
   */
  lemma SpeakersInOrder(lines: seq<string>)
    ensures Roles(ParseLines(lines)) == Speakers(lines)
    ensures |ParseLines(lines)| == |Speakers(lines)|
  {
    ParseLinesIsGrouped(lines);
    GroupedRoles(Lex(lines));
    LexSpeakers(lines);
  }

  /** The same, for a whole transcript. */
  lemma TranscriptSpeakers(text: string)
    ensures Roles(ParseTranscript(text)) == Speakers(Split(text, '\n'))
    ensures |ParseTranscript(text)| == |Speakers(Split(text, '\n'))|
  {
    if text == "" {
      assert Split(text, '\n') == [""];
      EmptyLineSpeaks();
    } else {
      SpeakersInOrder(Split(text, '\n'));
    }
  }

  /* ------------------------------------------- appending and removing lines */

  lemma LexAppend(xs: seq<string>, ys: seq<string>)
    ensures Lex(xs + ys) == Lex(xs) + Lex(ys)
  {
    FlatMapAppend(xs, ys, LexLine);
  }

  lemma LexSingle(line: string)
    ensures Lex([line]) == LexLine(line)
  {
    FlatMapSingle(line, LexLine);
  }

  lemma {:induction false} FeedAllAppend(p: Parser, ls: seq<Line>, l: Line)
    ensures FeedAll(p, ls + [l]) == Feed(FeedAll(p, ls), l)
    decreases |ls|
  {
    if |ls| == 0 {
      assert FeedAll(p, ls + [l]) == FeedAll(Feed(p, l), []);
    } else {
      assert (ls + [l])[1..] == ls[1..] + [l];
      FeedAllAppend(Feed(p, ls[0]), ls[1..], l);
    }
  }

  /** Once a message has been pushed, another one is always open. */
  predicate Settled(p: Parser) {
    p.messages != [] ==> p.current.Some?
  }

  lemma {:induction false} FeedAllSettled(p: Parser, ls: seq<Line>)
    requires Settled(p)
    ensures Settled(FeedAll(p, ls))
    decreases |ls|
  {
    if |ls| > 0 {
      FeedAllSettled(Feed(p, ls[0]), ls[1..]);
    }
  }

  /** A blank line anywhere in the line list changes nothing. */
  lemma BlankLineIgnored(xs: seq<string>, w: string, ys: seq<string>)
    requires IsBlank(w)
    ensures ParseLines(xs + [w] + ys) == ParseLines(xs + ys)
  {
    LexAppend(xs + [w], ys);
    LexAppend(xs, [w]);
    LexAppend(xs, ys);
    LexSingle(w);
    assert Lex(xs) + [] == Lex(xs);
  }

  /** A line that opens a message adds exactly that message at the end. */
  lemma AppendOpener(lines: seq<string>, l: string)
    requires OpensMessage(l)
    ensures ParseLines(lines + [l]) == ParseLines(lines) + [Opening(Trim(l))]
  {
    LexAppend(lines, [l]);
    LexSingle(l);
    FeedAllAppend(Start, Lex(lines), Classify(l));
  }

  /**
   * A non-blank line that opens nothing never adds a message: it extends
   * the last message by a newline and its trimmed text, or is dropped when
   * no message is open yet.
   */
  lemma AppendContinuation(lines: seq<string>, l: string)
    requires !IsBlank(l) && !OpensMessage(l)
    ensures var ms := ParseLines(lines);
            ParseLines(lines + [l])
            == if ms == [] then [] else ms[..|ms| - 1] + [Continue(ms[|ms| - 1], Trim(l))]
  {
    LexAppend(lines, [l]);
    LexSingle(l);
    var p := FeedAll(Start, Lex(lines));
    FeedAllAppend(Start, Lex(lines), Classify(l));
    FeedAllSettled(Start, Lex(lines));
    var ms := ParseLines(lines);
    if p.current.Some? {
      assert ms[..|ms| - 1] == p.messages;
    }
  }

  /** Lines before the first speaker prefix are discarded. */
  lemma LeadingLineDropped(l: string, lines: seq<string>)
    requires !OpensMessage(l)
    ensures ParseLines([l] + lines) == ParseLines(lines)
  {
    LexAppend([l], lines);
    LexSingle(l);
    ParseLinesIsGrouped([l] + lines);
    ParseLinesIsGrouped(lines);
    if !IsBlank(l) {
      assert Lex([l]) == [Text(Trim(l))];
      assert (Lex([l]) + Lex(lines))[1..] == Lex(lines);
    } else {
      assert Lex([l]) == [];
      assert Lex([l]) + Lex(lines) == Lex(lines);
    }
  }

  /**
   * A line that opens a message starts the first message: same speaker, and
   * its content begins with the trimmed remainder after the prefix.
   */
  lemma FirstMessage(l: string, lines: seq<string>)
    requires OpensMessage(l)
    ensures var ms := ParseLines([l] + lines);
            && |ms| > 0
            && ms[0].role == SpeakerOf(l)
            && StartsWith(ms[0].content, Opening(Trim(l)).content)
  {
    LexAppend([l], lines);
    LexSingle(l);
    ParseLinesIsGrouped([l] + lines);
    var ls := Lex([l] + lines);
    assert ls[0] == Opener(Opening(Trim(l)));
  }

  /* ------------------------------------------------------ whole transcripts */

  /** A whitespace-only line between two others changes nothing. */
  lemma TranscriptBlankLineIgnored(a: string, w: string, b: string)
    requires '\n' !in w && IsBlank(w)
    ensures ParseTranscript(a + "\n" + w + "\n" + b) == ParseTranscript(a + "\n" + b)
  {
    var xs, ys := Split(a, '\n'), Split(b, '\n');
    var with, without := a + "\n" + w + "\n" + b, a + "\n" + b;
    assert Split(with, '\n') == xs + [w] + ys by {
      assert a + "\n" + w + "\n" + b == a + ['\n'] + w + ['\n'] + b;
      SplitPieceBetween(a, w, b, '\n');
    }
    assert Split(without, '\n') == xs + ys by {
      assert without == a + ['\n'] + b;
      SplitAround(a, b, '\n');
    }
    assert |with| > 0 && |without| > 0;
    BlankLineIgnored(xs, w, ys);
  }

  /** A first line without a speaker prefix is discarded. */
  lemma TranscriptLeadingLineDropped(l: string, rest: string)
    requires '\n' !in l && !OpensMessage(l)
    ensures ParseTranscript(l + "\n" + rest) == ParseTranscript(rest)
  {
    TranscriptFirstLine(l, rest);
    LeadingLineDropped(l, Split(rest, '\n'));
    TranscriptOfLines(rest);
  }

  /** A first line without a line feed is the first piece of the split. */
  lemma TranscriptFirstLine(l: string, rest: string)
    requires '\n' !in l
    ensures ParseTranscript(l + "\n" + rest) == ParseLines([l] + Split(rest, '\n'))
  {
    assert l + "\n" + rest == l + ['\n'] + rest;
    SplitPieceFirst(l, rest, '\n');
  }

  /**
   * The early return for an empty transcript agrees with parsing its
   * split, the single empty line.
   */
  lemma TranscriptOfLines(text: string)
    ensures ParseTranscript(text) == ParseLines(Split(text, '\n'))
  {
    if text == "" {
      assert Split(text, '\n') == [""];
      EmptyLineParses();
    }
  }



  /** The lone empty line of an empty split names no speaker. */
  lemma EmptyLineSpeaks()
    ensures Speakers([""]) == []
  {
    FlatMapSingle("", SpeakerLine);
  }

  /** The lone empty line of an empty split opens nothing. */
  lemma EmptyLineParses()
    ensures ParseLines([""]) == []
  {
    ParseLinesIsGrouped([""]);
    LexSingle("");
  }

}
