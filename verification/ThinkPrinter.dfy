/** The streaming printer that turns think tags into colour changes. Text arrives in
    arbitrary chunks, so a tag cut in two is held back until the rest of it arrives. */
module ThinkPrinter {
  import opened Chunks

  const OPEN: string := "<think>"
  const CLOSE: string := "</think>"
  const GREY: string := "\U{1b}[90m"
  const RESET: string := "\U{1b}[0m"
  const PENDING_MAX: nat := 16

  /** One write to the terminal: a character of the text, or an escape sequence. */
  datatype Piece = Show(c: char) | Grey | Plain

  /** The bytes of those writes. */
  function Sent(ps: seq<Piece>): string {
    if ps == [] then []
    else Sent(ps[..|ps| - 1]) + match ps[|ps| - 1] case Show(c) => [c] case Grey => GREY case Plain => RESET
  }

  /** What the terminal has received, and how it is set. */
  datatype Screen = Screen(out: seq<Piece>, inThink: bool, colorOpen: bool, newline: bool)

  function ResetColor(color: bool, s: Screen): Screen {
    if color && s.colorOpen then s.(out := s.out + [Plain], colorOpen := false) else s
  }

  function SetGrey(color: bool, s: Screen): Screen {
    if color && !s.colorOpen then s.(out := s.out + [Grey], colorOpen := true) else s
  }

  function WriteChar(color: bool, s: Screen, c: char): Screen {
    var t := if s.inThink then SetGrey(color, s) else s;
    t.(out := t.out + [Show(c)], newline := c == '\n')
  }

  function OpenTag(s: Screen): Screen { s.(inThink := true) }

  /** Leaving the thinking section ends its line. */
  function CloseTag(color: bool, s: Screen): Screen {
    var t := ResetColor(color, s.(inThink := false));
    if t.newline then t else t.(out := t.out + [Show('\n')], newline := true)
  }

  // ---- What a text means ----

  datatype Token = Opening | Closing | Letter(c: char)

  /** The tags of a text, leftmost first, and its other characters. */
  function Tokens(text: string): seq<Token>
    decreases |text|
  {
    if text == [] then []
    else if OPEN <= text then [Opening] + Tokens(text[7..])
    else if CLOSE <= text then [Closing] + Tokens(text[8..])
    else [Letter(text[0])] + Tokens(text[1..])
  }

  function Draw(color: bool, s: Screen, t: Token): Screen {
    match t
    case Opening => OpenTag(s)
    case Closing => CloseTag(color, s)
    case Letter(c) => WriteChar(color, s, c)
  }

  function DrawAll(color: bool, s: Screen, ts: seq<Token>): Screen
    decreases |ts|
  {
    if ts == [] then s else DrawAll(color, Draw(color, s, ts[0]), ts[1..])
  }

  function Spelled(ts: seq<Token>): string {
    if ts == [] then []
    else (match ts[0] case Opening => OPEN case Closing => CLOSE case Letter(c) => [c]) + Spelled(ts[1..])
  }

  /** Reading a text as tags and letters loses nothing. */
  lemma {:induction false} TokensSpellText(text: string)
    ensures Spelled(Tokens(text)) == text
    decreases |text|
  {
    if text == [] {
    } else if OPEN <= text {
      TokensSpellText(text[7..]);
      assert text == OPEN + text[7..];
    } else if CLOSE <= text {
      TokensSpellText(text[8..]);
      assert text == CLOSE + text[8..];
    } else {
      TokensSpellText(text[1..]);
      assert text == [text[0]] + text[1..];
    }
  }

  lemma {:induction false} SpelledConcat(a: seq<Token>, b: seq<Token>)
    ensures Spelled(a + b) == Spelled(a) + Spelled(b)
  {
    if a == [] {
      assert a + b == b;
    } else {
      assert (a + b)[1..] == a[1..] + b;
      SpelledConcat(a[1..], b);
    }
  }

  /** And it leaves no tag unread: no letters in a row spell one. */
  lemma {:induction false} LettersSpellNoTag(text: string, i: nat, n: nat)
    requires i + n <= |Tokens(text)| && forall k :: i <= k < i + n ==> Tokens(text)[k].Letter?
    ensures Spelled(Tokens(text)[i..i + n]) !in {OPEN, CLOSE}
    decreases |text|
  {
    if i > 0 {
      var rest := FirstToken(text);
      hide *;
      Shifted(Tokens(text), Tokens(rest), i, n);
      LettersSpellNoTag(rest, i - 1, n);
    } else if n > 0 {
      FirstLetters(text, n);
    }
  }

  lemma Shifted(ts: seq<Token>, rest: seq<Token>, i: nat, n: nat)
    requires ts != [] && ts[1..] == rest && 0 < i && i + n <= |ts|
    ensures i - 1 + n <= |rest| && ts[i..i + n] == rest[i - 1..i - 1 + n]
    ensures forall k :: i - 1 <= k < i - 1 + n ==> rest[k] == ts[k + 1]
  {
  }

  lemma FirstLetters(text: string, n: nat)
    requires 0 < n <= |Tokens(text)| && Tokens(text)[0].Letter?
    ensures Spelled(Tokens(text)[0..n]) !in {OPEN, CLOSE}
  {
    var ts := Tokens(text);
    var rest := FirstToken(text);
    TokensSpellText(text);
    SpelledConcat(ts[..n], ts[n..]);
    hide Tokens, Spelled;
    assert ts[..n] + ts[n..] == ts && ts[0..n] == ts[..n];
    assert Spelled(ts[..n]) <= text;
  }

  lemma FirstToken(text: string) returns (rest: string)
    requires text != []
    ensures |rest| < |text| && Tokens(text) != [] && Tokens(text)[1..] == Tokens(rest)
    ensures Tokens(text)[0].Letter? ==> !(OPEN <= text) && !(CLOSE <= text)
  {
    rest := if OPEN <= text then text[7..] else if CLOSE <= text then text[8..] else text[1..];
  }

  // ---- What the reader sees ----

  /** A character on the terminal, and whether it is grey. */
  datatype Cell = Cell(c: char, grey: bool)

  /** Whether the terminal writes grey after some writes. */
  ghost function Lit(ps: seq<Piece>): bool {
    if ps == [] then false
    else match ps[|ps| - 1] case Show(_) => Lit(ps[..|ps| - 1]) case Grey => true case Plain => false
  }

  ghost function Shown(ps: seq<Piece>): seq<Cell> {
    if ps == [] then []
    else
      var n := |ps| - 1;
      Shown(ps[..n]) + if ps[n].Show? then [Cell(ps[n].c, Lit(ps[..n]))] else []
  }

  /** What should be seen of some tokens: their letters, grey inside the thinking section if
      colours are on, and where a section is closed a line break, unless there is one. */
  ghost function Styled(color: bool, ts: seq<Token>, inThink: bool, newline: bool): seq<Cell> {
    if ts == [] then []
    else match ts[0]
      case Opening => Styled(color, ts[1..], true, newline)
      case Closing => (if newline then [] else [Cell('\n', false)]) + Styled(color, ts[1..], false, true)
      case Letter(c) => [Cell(c, color && inThink)] + Styled(color, ts[1..], inThink, c == '\n')
  }

  /** The colour is tracked, and only ever set inside a thinking section. */
  ghost predicate InColor(color: bool, s: Screen) {
    && Lit(s.out) == s.colorOpen && (s.colorOpen ==> color && s.inThink)
    && (!color ==> forall p <- s.out :: p.Show?)
  }

  lemma Wrote(ps: seq<Piece>, p: Piece)
    ensures Lit(ps + [p]) == match p case Show(_) => Lit(ps) case Grey => true case Plain => false
    ensures Shown(ps + [p]) == Shown(ps) + if p.Show? then [Cell(p.c, Lit(ps))] else []
  {
    assert (ps + [p])[..|ps|] == ps;
  }

  lemma DrawLooks(color: bool, s: Screen, t: Token)
    requires InColor(color, s)
    ensures var d := Draw(color, s, t);
      InColor(color, d) && Shown(d.out) == Shown(s.out) + Styled(color, [t], s.inThink, s.newline)
  {
    hide Lit, Shown;
    match t
    case Opening =>
    case Closing =>
      Wrote(s.out, Plain);
      Wrote(s.out + [Plain], Show('\n'));
      Wrote(s.out, Show('\n'));
    case Letter(c) =>
      Wrote(s.out, Grey);
      Wrote(s.out + [Grey], Show(c));
      Wrote(s.out, Show(c));
  }

  /** The style carries on from one token to the next. */
  lemma StyledStep(color: bool, s: Screen, ts: seq<Token>)
    requires ts != []
    ensures var d := Draw(color, s, ts[0]);
      Styled(color, ts, s.inThink, s.newline)
      == Styled(color, [ts[0]], s.inThink, s.newline) + Styled(color, ts[1..], d.inThink, d.newline)
  {
    assert [ts[0]][1..] == [];
  }

  lemma {:induction false} DrawAllLooks(color: bool, s: Screen, ts: seq<Token>)
    requires InColor(color, s)
    ensures var d := DrawAll(color, s, ts);
      InColor(color, d) && Shown(d.out) == Shown(s.out) + Styled(color, ts, s.inThink, s.newline)
    decreases |ts|
  {
    hide InColor, Shown, Draw;
    if ts != [] {
      DrawLooks(color, s, ts[0]);
      DrawAllLooks(color, Draw(color, s, ts[0]), ts[1..]);
      StyledStep(color, s, ts);
      hide Styled;
    }
  }

  /** After the finish the terminal shows exactly that and is plain again, and without
      colours nothing but the characters was sent. */
  lemma PrintedLooks(color: bool, inThink: bool, ts: seq<Token>)
    ensures var sent := ResetColor(color, DrawAll(color, Screen([], inThink, false, true), ts)).out;
      && Shown(sent) == Styled(color, ts, inThink, true) && !Lit(sent)
      && (!color ==> forall p <- sent :: p.Show?)
  {
    hide DrawAll, Styled;
    var s := Screen([], inThink, false, true);
    DrawAllLooks(color, s, ts);
    Wrote(DrawAll(color, s, ts).out, Plain);
  }

  function Letters(text: string): seq<Piece> { seq(|text|, i requires 0 <= i < |text| => Show(text[i])) }

  /** The bytes of plain text are the text, and of the escapes what a terminal takes for
      bright black and for plain. */
  lemma {:induction false} SentBytes(ps: seq<Piece>, text: string)
    ensures Sent(ps + Letters(text)) == Sent(ps) + text
    ensures Sent(ps + [Grey]) == Sent(ps) + ['\U{1b}', '[', '9', '0', 'm']
    ensures Sent(ps + [Plain]) == Sent(ps) + ['\U{1b}', '[', '0', 'm']
    decreases |text|
  {
    assert (ps + [Grey])[..|ps|] == ps && (ps + [Plain])[..|ps|] == ps;
    if text == [] {
      assert ps + Letters(text) == ps;
    } else {
      var n := |text| - 1;
      SentBytes(ps, text[..n]);
      assert (ps + Letters(text))[..|ps| + n] == ps + Letters(text[..n]);
      assert Sent(ps) + text[..n] + [text[n]] == Sent(ps) + text;
    }
  }

  // ---- What one call does ----

  predicate Partial(text: string, tag: string) { |text| < |tag| && text <= tag }

  /** A nonempty beginning of a tag at the end of the input. */
  predicate HeldBack(text: string) {
    text != [] && text[0] == '<' && (Partial(text, OPEN) || Partial(text, CLOSE))
  }

  /** One pass over the buffered text: the new screen, and what is held back. */
  function Scan(color: bool, s: Screen, text: string, finish: bool): (Screen, string)
    decreases |text|
  {
    if text == [] then (s, [])
    else if OPEN <= text then Scan(color, OpenTag(s), text[7..], finish)
    else if CLOSE <= text then Scan(color, CloseTag(color, s), text[8..], finish)
    else if !finish && HeldBack(text) then (s, text)
    else Scan(color, WriteChar(color, s, text[0]), text[1..], finish)
  }

  /** A finished pass draws the text's tokens. */
  lemma {:induction false} FinishedScanDraws(color: bool, s: Screen, text: string)
    ensures Scan(color, s, text, true) == (DrawAll(color, s, Tokens(text)), [])
    decreases |text|
  {
    hide WriteChar, CloseTag, OpenTag;
    if text == [] {
    } else if OPEN <= text {
      FinishedScanDraws(color, OpenTag(s), text[7..]);
    } else if CLOSE <= text {
      FinishedScanDraws(color, CloseTag(color, s), text[8..]);
    } else {
      FinishedScanDraws(color, WriteChar(color, s, text[0]), text[1..]);
    }
  }

  /** If neither a tag nor the beginning of one starts here, more text will not make one. */
  lemma NoTagLater(x: string, y: string)
    requires x != [] && !(OPEN <= x) && !(CLOSE <= x) && !HeldBack(x)
    ensures !(OPEN <= x + y) && !(CLOSE <= x + y) && !HeldBack(x + y)
  {
    TagStartsBefore(x, y, OPEN);
    TagStartsBefore(x, y, CLOSE);
  }

  /** A tag that is there once more text arrives was there, or begun, before. */
  lemma TagStartsBefore(x: string, y: string, tag: string)
    requires x != []
    ensures tag <= x + y ==> tag <= x || Partial(x, tag)
    ensures Partial(x + y, tag) ==> Partial(x, tag)
  {
    var all := x + y;
    assert all[..|x|] == x;
    if tag <= all {
      if |x| < |tag| { assert tag[..|x|] == all[..|x|]; } else { assert x[..|tag|] == all[..|tag|]; }
    }
    if Partial(all, tag) { assert tag[..|x|] == all[..|x|]; }
  }

  /** Where a chunk ends does not matter: what is held back and the next chunk together
      continue exactly where the first pass stopped. */
  lemma {:induction false} ScanContinues(color: bool, s: Screen, x: string, y: string, finish: bool)
    ensures var (t, held) := Scan(color, s, x, false);
      Scan(color, s, x + y, finish) == Scan(color, t, held + y, finish)
    decreases |x|
  {
    hide WriteChar, CloseTag, OpenTag;
    if x == [] {
      assert x + y == y && [] + y == y;
    } else if OPEN <= x {
      assert (x + y)[7..] == x[7..] + y && OPEN <= x + y;
      ScanContinues(color, OpenTag(s), x[7..], y, finish);
    } else if CLOSE <= x {
      assert (x + y)[8..] == x[8..] + y && CLOSE <= x + y;
      ScanContinues(color, CloseTag(color, s), x[8..], y, finish);
    } else if !HeldBack(x) {
      NoTagLater(x, y);
      assert (x + y)[1..] == x[1..] + y;
      ScanContinues(color, WriteChar(color, s, x[0]), x[1..], y, finish);
    }
  }

  /** What is held back always fits the pending buffer, so no byte is dropped. */
  lemma {:induction false} HeldBackFits(color: bool, s: Screen, text: string, finish: bool)
    ensures var held := Scan(color, s, text, finish).1;
      |held| < 8 < PENDING_MAX && (held == [] || HeldBack(held)) && (finish ==> held == [])
    decreases |text|
  {
    hide WriteChar, CloseTag, OpenTag;
    if text == [] {
    } else if OPEN <= text {
      HeldBackFits(color, OpenTag(s), text[7..], finish);
    } else if CLOSE <= text {
      HeldBackFits(color, CloseTag(color, s), text[8..], finish);
    } else if finish || !HeldBack(text) {
      HeldBackFits(color, WriteChar(color, s, text[0]), text[1..], finish);
    }
  }

  /** Feeding chunks one call at a time. */
  function Feed(color: bool, s: Screen, chunks: seq<string>): (Screen, string) {
    if chunks == [] then (s, [])
    else
      var (t, held) := Feed(color, s, chunks[..|chunks| - 1]);
      Scan(color, t, held + chunks[|chunks| - 1], false)
  }

  lemma {:induction false} FeedIsOneScan(color: bool, s: Screen, chunks: seq<string>)
    ensures Feed(color, s, chunks) == Scan(color, s, Concat(chunks), false)
  {
    hide WriteChar, CloseTag, OpenTag, Scan;
    if chunks == [] {
      ScanNothing(color, s, false);
    } else {
      var n := |chunks| - 1;
      FeedIsOneScan(color, s, chunks[..n]);
      ScanContinues(color, s, Concat(chunks[..n]), chunks[n], false);
    }
  }

  lemma ScanNothing(color: bool, s: Screen, finish: bool)
    ensures Scan(color, s, [], finish) == (s, [])
  {
  }

  /** Any chunks, then a finishing call: the screen shows the tokens of the whole text,
      whatever the chunks were. */
  lemma ChunksDoNotMatter(color: bool, s: Screen, chunks: seq<string>)
    ensures var (t, held) := Feed(color, s, chunks);
      Scan(color, t, held, true) == (DrawAll(color, s, Tokens(Concat(chunks))), [])
  {
    hide WriteChar, CloseTag, OpenTag, Scan, Feed;
    var (t, held) := Feed(color, s, chunks);
    FeedIsOneScan(color, s, chunks);
    ScanContinues(color, s, Concat(chunks), [], true);
    assert Concat(chunks) + [] == Concat(chunks) && held + [] == held;
    FinishedScanDraws(color, s, Concat(chunks));
  }

  /** The printer's own fields; `out` is what its stream has been sent. */
  class TokenPrinter {
    const color: bool
    const formatThinking: bool
    var out: seq<Piece>
    var inThink: bool
    var colorOpen: bool
    var newline: bool
    const pending: array<char>
    var pendingLen: nat

    ghost predicate Valid()
      reads this
    {
      pending.Length == PENDING_MAX && pendingLen < PENDING_MAX
    }

    ghost function View(): Screen
      reads this
    {
      Screen(out, inThink, colorOpen, newline)
    }

    ghost function Held(): string
      requires Valid()
      reads this, pending
    {
      pending[..pendingLen]
    }

    constructor (color: bool, formatThinking: bool, inThink: bool)
      ensures Valid() && fresh(pending) && this.color == color && this.formatThinking == formatThinking
      ensures View() == Screen([], inThink, false, true) && Held() == []
    {
      this.color, this.formatThinking, this.inThink := color, formatThinking, inThink;
      out, colorOpen, newline, pending, pendingLen := [], false, true, new char[PENDING_MAX], 0;
    }

    method Put(c: char)
      modifies `out, `colorOpen, `newline
      ensures View() == WriteChar(color, old(View()), c)
    {
      if inThink && color && !colorOpen { out, colorOpen := out + [Grey], true; }
      out, newline := out + [Show(c)], c == '\n';
    }

    method Uncolor()
      modifies `out, `colorOpen
      ensures View() == ResetColor(color, old(View()))
    {
      if color && colorOpen { out, colorOpen := out + [Plain], false; }
    }

    method LeaveThink()
      modifies `out, `inThink, `colorOpen, `newline
      ensures View() == CloseTag(color, old(View()))
    {
      inThink := false;
      Uncolor();
      if !newline { out, newline := out + [Show('\n')], true; }
    }

    /** Prints the pending bytes and `text`, except for what must be held back. */
    method Process(text: string, finish: bool)
      requires Valid()
      modifies this, pending
      ensures Valid() && (View(), Held()) == Scan(color, old(View()), old(Held()) + text, finish)
    {
      var buf := pending[..pendingLen] + text;
      HeldBackFits(color, View(), buf, finish);
      hide WriteChar, CloseTag;
      pendingLen := 0;
      var i := 0;
      while i < |buf|
        invariant i <= |buf| && pendingLen == 0
        invariant Scan(color, View(), buf[i..], finish) == Scan(color, old(View()), buf, finish)
      {
        var cur := buf[i..];
        if OPEN <= cur {
          assert buf[i + 7..] == cur[7..];
          inThink := true;
          i := i + 7;
          continue;
        }
        if CLOSE <= cur {
          assert buf[i + 8..] == cur[8..];
          LeaveThink();
          i := i + 8;
          continue;
        }
        if !finish && HeldBack(cur) {
          if |cur| < PENDING_MAX {
            forall j | 0 <= j < |cur| { pending[j] := cur[j]; }
            pendingLen := |cur|;
            assert pending[..pendingLen] == cur;
          }
          return;
        }
        assert buf[i + 1..] == cur[1..];
        Put(buf[i]);
        i := i + 1;
      }
      assert buf[i..] == [];
      assert pending[..0] == [];
    }

    method WriteText(text: string)
      requires Valid()
      modifies this, pending
      ensures Valid()
      ensures formatThinking ==> (View(), Held()) == Scan(color, old(View()), old(Held()) + text, false)
      ensures !formatThinking && text == [] ==> View() == old(View()) && Held() == old(Held())
      ensures !formatThinking && text != [] ==>
        View() == old(View()).(out := old(out) + Letters(text), newline := text[|text| - 1] == '\n') && Held() == old(Held())
    {
      if formatThinking {
        Process(text, false);
      } else if text != [] {
        out, newline := out + Letters(text), text[|text| - 1] == '\n';
      }
    }

    method Finish()
      requires Valid()
      modifies this, pending
      ensures Valid()
      ensures formatThinking ==> View() == ResetColor(color, Scan(color, old(View()), old(Held()), true).0) && Held() == []
      ensures !formatThinking ==> View() == old(View()) && Held() == old(Held())
    {
      if formatThinking {
        HeldBackFits(color, View(), Held(), true);
        assert Held() + [] == Held();
        Process([], true);
        Uncolor();
      }
    }
  }

  /** The printer end to end: any chunks, then the finish; and what the terminal then
      shows, which is lit no longer. */
  method PrintAll(color: bool, inThink: bool, chunks: seq<string>) returns (out: string, sent: seq<Piece>)
    ensures out == Sent(sent)
    ensures sent == ResetColor(color, DrawAll(color, Screen([], inThink, false, true), Tokens(Concat(chunks)))).out
    ensures Shown(sent) == Styled(color, Tokens(Concat(chunks)), inThink, true) && !Lit(sent)
    ensures !color ==> forall p <- sent :: p.Show?
  {
    hide ResetColor, Scan, DrawAll, Styled, Shown, Lit;
    var p := new TokenPrinter(color, true, inThink);
    ghost var s := p.View();
    for i := 0 to |chunks|
      invariant p.Valid() && p.formatThinking && p.color == color && fresh(p) && fresh(p.pending)
      invariant (p.View(), p.Held()) == Feed(color, s, chunks[..i])
    {
      assert chunks[..i + 1][..i] == chunks[..i];
      p.WriteText(chunks[i]);
    }
    assert chunks[..|chunks|] == chunks;
    ChunksDoNotMatter(color, s, chunks);
    p.Finish();
    PrintedLooks(color, inThink, Tokens(Concat(chunks)));
    out, sent := Sent(p.out), p.out;
  }
}
