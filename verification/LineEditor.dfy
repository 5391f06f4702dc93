/**
 * The console's line editor. The program keeps the line in one buffer and the text behind the cursor
 * a second time, reversed, in another; seen from outside it is a text before and a text after the
 * cursor, with a history that the up and down keys walk.
 */
module LineEditor {

  const NEWLINE := '\n'
  const BACKSPACE := 127 as char
  const ESCAPE := 27 as char
  const NUL := 0 as char
  const HISTORY := 256
  const SCRATCH := 256

  // ---------- The editor seen from outside ----------

  /**
   * `top` is the number of the next history row, `depth` how many rows the walk has gone up, and
   * `saved` the line typed before the walk began.
   */
  datatype Editor = Editor(before: string, after: string, escape: bool,
                           history: seq<string>, top: nat, depth: nat, saved: string) {
    function Line(): string { before + after }

    predicate Proper() { depth <= top <= |history| }

    /** Writes the line back to the row the walk stands at. */
    function Kept(): (e: Editor)
      requires Proper()
      ensures e.Proper()
    { if depth == 0 then this else this.(history := history[top - depth := Line()]) }

    /** The line the walk stands at. */
    function Recalled(): string
      requires Proper()
    { if depth == 0 then saved else history[top - depth] }

    function Up(): (e: Editor)
      requires Proper()
      ensures e.Proper()
    {
      if depth == top then this
      else
        var e := Kept().(saved := if depth == 0 then Line() else saved, depth := depth + 1);
        e.(before := e.Recalled(), after := "")
    }

    /** The cursor keeps its distance from the end of the line. */
    function Down(): (e: Editor)
      requires Proper() && DownKeepsCursor()
      ensures e.Proper()
    {
      if depth == 0 then this
      else
        var e := Kept().(depth := depth - 1);
        e.(before := e.Recalled()[..|e.Recalled()| - |after|])
    }

    /** The line recalled by a step down ends with the text that is now after the cursor. */
    predicate DownKeepsCursor()
      requires Proper()
    {
      depth > 0 ==>
        var line := Kept().(depth := depth - 1).Recalled();
        |after| <= |line| && line[|line| - |after|..] == after
    }

    /** The effect of a key on an unfinished line. */
    function Press(ch: char): (e: Editor)
      requires Proper() && (escape && ch == 'B' ==> DownKeepsCursor())
      ensures e.Proper()
    {
      if ch == BACKSPACE then
        if before == "" then this else this.(before := before[..|before| - 1])
      else if ch == ESCAPE then this.(escape := true)
      else if !escape then this.(before := before + [ch])
      else if ch == '[' then this
      else
        var e := if ch == 'A' then Up() else if ch == 'B' then Down() else if ch == 'C' then Right()
                 else if ch == 'D' then Left() else this;
        e.(escape := false)
    }

    function Right(): (e: Editor)
      requires Proper()
      ensures e.Proper()
    { if after == "" then this else this.(before := before + [after[0]], after := after[1..]) }

    function Left(): (e: Editor)
      requires Proper()
      ensures e.Proper()
    {
      if before == "" then this
      else this.(before := before[..|before| - 1], after := [before[|before| - 1]] + after)
    }
  }

  /** What every key does to the text and the cursor; the letters are those of arrow keys after escape. */
  lemma PressByKey(e: Editor, ch: char)
    requires e.Proper() && !(e.escape && ch in {'A', 'B'})
    ensures var r, b, a := e.Press(ch), e.before, e.after;
            if ch == 127 as char then r == e.(before := if b == "" then "" else b[..|b| - 1])
            else if ch == 27 as char then r == e.(escape := true)
            else if !e.escape then r == e.(before := b + [ch])
            else if ch == '[' then r == e
            else if ch == 'C' && a != "" then r == e.(before := b + a[..1], after := a[1..], escape := false)
            else if ch == 'D' && b != "" then
              r == e.(before := b[..|b| - 1], after := b[|b| - 1..] + a, escape := false)
            else r == e.(escape := false)
  {}

  /** A step up: the line is kept, where the walk stands or as the one typed, and the row before shown. */
  lemma PressUp(e: Editor)
    requires e.Proper() && e.escape
    ensures var r, line := e.Press('A'), e.before + e.after;
            if e.depth == e.top then r == e.(escape := false)
            else
              && r.before == r.history[e.top - r.depth] && r.after == ""
              && (e.depth == 0 ==>
                    r == Editor(r.before, "", false, e.history, e.top, 1, line))
              && (e.depth > 0 ==>
                    r == Editor(r.before, "", false, e.history[e.top - e.depth := line], e.top, e.depth + 1, e.saved))
  {}

  /** A step down: the line is kept, and the row after shown or the line typed, the cursor where it was. */
  lemma PressDown(e: Editor)
    requires e.Proper() && e.escape && e.DownKeepsCursor()
    ensures var r, line := e.Press('B'), e.before + e.after;
            if e.depth == 0 then r == e.(escape := false)
            else
              && r.before + e.after == (if e.depth == 1 then e.saved else e.history[e.top - e.depth + 1])
              && r == Editor(r.before, e.after, false, e.history[e.top - e.depth := line], e.top, e.depth - 1, e.saved)
  {
    if e.depth > 0 {
      var d := e.Kept().(depth := e.depth - 1);
      var line := d.Recalled();
      assert line == line[..|line| - |e.after|] + line[|line| - |e.after|..];
    }
  }

  /** A character and backspace change nothing. */
  lemma TypedAndErased(e: Editor, ch: char)
    requires e.Proper() && !e.escape && ch != BACKSPACE && ch != ESCAPE
    ensures e.Press(ch).Press(BACKSPACE) == e
  {
    assert (e.before + [ch])[..|e.before|] == e.before;
  }

  /** A step to one side and one to the other change nothing. */
  lemma LeftAndRight(e: Editor)
    requires e.Proper() && !e.escape
    ensures e.before != "" ==> Arrow(Arrow(e, 'D'), 'C') == e
    ensures e.after != "" ==> Arrow(Arrow(e, 'C'), 'D') == e
  {
    if e.before != "" {
      assert e.before[..|e.before| - 1] + [e.before[|e.before| - 1]] == e.before;
    }
    if e.after != "" {
      assert [e.after[0]] + e.after[1..] == e.after;
    }
  }

  /** The three characters that an arrow key to the side sends. */
  function Arrow(e: Editor, letter: char): (r: Editor)
    requires e.Proper() && (letter == 'C' || letter == 'D')
    ensures r.Proper()
  { e.Press(ESCAPE).Press('[').Press(letter) }

  // ---------- The history walk ----------

  predicate AtEnd(e: Editor) { e.Proper() && !e.escape && e.after == "" }

  /** The three characters that an arrow key sends. */
  function ArrowUp(e: Editor): (r: Editor)
    requires e.Proper()
    ensures r.Proper()
  { e.Press(ESCAPE).Press('[').Press('A') }

  function ArrowDown(e: Editor): (r: Editor)
    requires AtEnd(e)
    ensures AtEnd(r)
  { e.Press(ESCAPE).Press('[').Press('B') }

  function UpTimes(e: Editor, k: nat): (r: Editor)
    requires e.Proper() && !e.escape
    ensures r.Proper() && !r.escape && (k > 0 && e.depth < e.top ==> AtEnd(r))
  { if k == 0 then e else ArrowUp(UpTimes(e, k - 1)) }

  function DownTimes(e: Editor, k: nat): (r: Editor)
    requires AtEnd(e)
    ensures AtEnd(r)
  { if k == 0 then e else ArrowDown(DownTimes(e, k - 1)) }

  /** The editor at a row of the history that has not been edited, the cursor at the end. */
  function AtRow(history: seq<string>, top: nat, depth: nat, saved: string): (e: Editor)
    requires depth <= top <= |history|
    ensures AtEnd(e)
  { Editor(if depth == 0 then saved else history[top - depth], "", false, history, top, depth, saved) }

  lemma UpFromRow(history: seq<string>, top: nat, depth: nat, saved: string)
    requires depth < top <= |history|
    ensures ArrowUp(AtRow(history, top, depth, saved)) == AtRow(history, top, depth + 1, saved)
  {
    var e := AtRow(history, top, depth, saved);
    assert e.Line() == e.before;
    assert e.Kept().history == history;
    assert e.Press(ESCAPE).Press('[') == e.(escape := true);
    assert e.(escape := true).Kept().history == history;
  }

  lemma DownFromRow(history: seq<string>, top: nat, depth: nat, saved: string)
    requires depth < top <= |history|
    ensures ArrowDown(AtRow(history, top, depth + 1, saved)) == AtRow(history, top, depth, saved)
  {
    var e := AtRow(history, top, depth + 1, saved);
    assert e.Line() == e.before;
    assert e.Press(ESCAPE).Press('[') == e.(escape := true);
    assert e.(escape := true).Kept().history == history;
    var line := AtRow(history, top, depth, saved).before;
    assert line[..|line| - 0] == line;
  }

  /** The first step up saves the line, wherever its cursor is. */
  lemma FirstUp(e: Editor)
    requires e.Proper() && !e.escape && e.depth == 0 && 0 < e.top
    ensures ArrowUp(e) == AtRow(e.history, e.top, 1, e.Line())
  {
    assert e.Press(ESCAPE).Press('[') == e.(escape := true);
  }

  /** Going up writes back what is there and so changes nothing in the history. */
  lemma {:induction false} WalkUp(e: Editor, k: nat)
    requires e.Proper() && !e.escape && e.depth == 0 && 0 < k <= e.top
    ensures UpTimes(e, k) == AtRow(e.history, e.top, k, e.Line())
  {
    if k == 1 {
      assert UpTimes(e, 0) == e;
      FirstUp(e);
    } else {
      WalkUp(e, k - 1);
      UpFromRow(e.history, e.top, k - 1, e.Line());
    }
  }

  lemma {:induction false} WalkDown(e: Editor, depth: nat, k: nat)
    requires depth + k <= e.top <= |e.history| && e == AtRow(e.history, e.top, depth + k, e.saved)
    ensures DownTimes(e, k) == AtRow(e.history, e.top, depth, e.saved)
    decreases k
  {
    if k > 0 {
      WalkDown(e, depth + 1, k - 1);
      WalkStep(e, depth, k);
    }
  }

  lemma WalkStep(e: Editor, depth: nat, k: nat)
    requires depth < e.top <= |e.history| && AtEnd(e) && k > 0
    requires DownTimes(e, k - 1) == AtRow(e.history, e.top, depth + 1, e.saved)
    ensures DownTimes(e, k) == AtRow(e.history, e.top, depth, e.saved)
  {
    DownFromRow(e.history, e.top, depth, e.saved);
    OneMoreDown(e, k, AtRow(e.history, e.top, depth + 1, e.saved), AtRow(e.history, e.top, depth, e.saved));
  }

  lemma OneMoreDown(e: Editor, k: nat, row: Editor, next: Editor)
    requires AtEnd(e) && k > 0 && DownTimes(e, k - 1) == row && AtEnd(row) && ArrowDown(row) == next
    ensures DownTimes(e, k) == next
  {}

  /**
   * As many steps down as up bring the typed line back, with the cursor at its end, and leave the
   * history as it was.
   */
  lemma WalkRoundTrip(e: Editor, k: nat)
    requires e.Proper() && !e.escape && e.depth == 0 && 0 < k <= e.top
    ensures DownTimes(UpTimes(e, k), k) == AtRow(e.history, e.top, 0, e.Line())
  {
    WalkUp(e, k);
    WalkDown(UpTimes(e, k), 0, k);
  }

  /** With "a" typed and "x" recalled, one key left and one down leave "x" after a cursor in "a". */
  lemma CursorCanBeLost(history: seq<string>, top: nat)
    requires 0 < top <= |history| && history[top - 1] == "x"
    ensures var e := AtRow(history, top, 1, "a").Press(ESCAPE).Press('[').Press('D');
            e.Proper() && e.after == "x" && !e.DownKeepsCursor()
  {
    var e := AtRow(history, top, 1, "a").Press(ESCAPE).Press('[').Press('D');
    assert e.after == "x" && e.Kept().(depth := 0).Recalled() == "a";
  }

  // ---------- A whole line ----------

  /** A key that ends the line: newline, or any key once the buffer is full. */
  predicate Ends(e: Editor, ch: char, maxLen: nat) { ch == NEWLINE || |e.Line()| + 1 >= maxLen }

  /** No step down is taken with the cursor inside text that the line below does not end with. */
  predicate Safe(e: Editor, keys: seq<char>, maxLen: nat)
    requires e.Proper()
    decreases keys
  {
    keys == [] || Ends(e, keys[0], maxLen) ||
    ((e.escape && keys[0] == 'B' ==> e.DownKeepsCursor()) && Safe(e.Press(keys[0]), keys[1..], maxLen))
  }

  /** The editor after these keys, up to the one that ends the line. */
  function Session(e: Editor, keys: seq<char>, maxLen: nat): (r: Editor)
    requires e.Proper() && Safe(e, keys, maxLen)
    ensures r.Proper()
    decreases keys
  {
    if keys == [] || Ends(e, keys[0], maxLen) then e else Session(e.Press(keys[0]), keys[1..], maxLen)
  }

  /** One of these keys ends the line. */
  predicate Finishes(e: Editor, keys: seq<char>, maxLen: nat)
    requires e.Proper() && Safe(e, keys, maxLen)
    decreases keys
  {
    keys != [] && (Ends(e, keys[0], maxLen) || Finishes(e.Press(keys[0]), keys[1..], maxLen))
  }

  /** None of these keys does anything but insert itself. */
  predicate IsText(keys: seq<char>) {
    forall k :: 0 <= k < |keys| ==> keys[k] != '\n' && keys[k] != 127 as char && keys[k] != 27 as char
  }

  /** Text that fits into the buffer is inserted at the cursor as it is, and other keys can follow. */
  lemma {:induction false} TextIsInserted(e: Editor, text: seq<char>, others: seq<char>, maxLen: nat)
    requires e.Proper() && !e.escape && IsText(text) && |e.before| + |e.after| + |text| < maxLen
    ensures var r := e.(before := e.before + text);
            Safe(e, text + others, maxLen) == Safe(r, others, maxLen)
    ensures var r := e.(before := e.before + text);
            Safe(r, others, maxLen) ==>
              && Session(e, text + others, maxLen) == Session(r, others, maxLen)
              && Finishes(e, text + others, maxLen) == Finishes(r, others, maxLen)
    decreases text
  {
    if text == [] {
      assert text + others == others && e.before + text == e.before;
    } else {
      var keys := text + others;
      assert keys[0] == text[0] && keys[1..] == text[1..] + others;
      assert e.before + [text[0]] + text[1..] == e.before + text;
      TextIsInserted(e.Press(text[0]), text[1..], others, maxLen);
    }
  }

  /** A whole line: text and the key that ends it give exactly the text. */
  lemma TextIsTheLine(e: Editor, text: seq<char>, keys: seq<char>, maxLen: nat)
    requires e.Proper() && e.before == "" && e.after == "" && !e.escape
    requires IsText(text) && |text| < maxLen && keys == text + ['\n']
    ensures Safe(e, keys, maxLen) && Finishes(e, keys, maxLen)
    ensures Session(e, keys, maxLen) == e.(before := text)
  {
    TextIsInserted(e, text, ['\n'], maxLen);
    assert "" + text == text;
  }

  /** If nothing ends it, the text typed so far is there, and the program waits for more. */
  lemma TextSoFar(e: Editor, text: seq<char>, maxLen: nat)
    requires e.Proper() && e.before == "" && e.after == "" && !e.escape
    requires IsText(text) && |text| < maxLen
    ensures Safe(e, text, maxLen) && !Finishes(e, text, maxLen)
    ensures Session(e, text, maxLen) == e.(before := text)
  {
    assert text + [] == text;
    TextIsInserted(e, text, [], maxLen);
    assert "" + text == text;
  }

  /** A character too many, taken back, makes no difference to what follows. */
  lemma ErasedInSession(e: Editor, ch: char, others: seq<char>, maxLen: nat)
    requires e.Proper() && !e.escape && IsText([ch]) && |e.before| + |e.after| + 2 < maxLen
    ensures Safe(e, [ch, 127 as char] + others, maxLen) == Safe(e, others, maxLen)
    ensures Safe(e, others, maxLen) ==>
              && Session(e, [ch, 127 as char] + others, maxLen) == Session(e, others, maxLen)
              && Finishes(e, [ch, 127 as char] + others, maxLen) == Finishes(e, others, maxLen)
  {
    assert [ch][0] == ch;
    TypedAndErased(e, ch);
    var keys := [ch, 127 as char] + others;
    assert keys[0] == ch && keys[1..] == [127 as char] + others && keys[1..][1..] == others;
  }

  /** Newline ends the line wherever it comes. */
  lemma {:induction false} NewlineFinishes(e: Editor, keys: seq<char>, maxLen: nat)
    requires e.Proper() && Safe(e, keys, maxLen) && '\n' in keys
    ensures Finishes(e, keys, maxLen)
    decreases keys
  {
    if !Ends(e, keys[0], maxLen) {
      assert '\n' in keys[1..];
      NewlineFinishes(e.Press(keys[0]), keys[1..], maxLen);
    }
  }

  /** Whether the next letter will be taken for that of an arrow key. */
  function EscapeAfter(escape: bool, ch: char): bool {
    if ch == BACKSPACE then escape
    else if ch == ESCAPE then true
    else escape && ch == '['
  }

  /** Among these keys there is no arrow with this letter; as ordinary text the letter may be there. */
  predicate NoArrow(letter: char, escape: bool, keys: seq<char>)
    decreases keys
  {
    keys == [] || (!(escape && keys[0] == letter) && NoArrow(letter, EscapeAfter(escape, keys[0]), keys[1..]))
  }

  lemma EscapePressed(e: Editor, ch: char)
    requires e.Proper() && (e.escape && ch == 'B' ==> e.DownKeepsCursor())
    ensures e.Press(ch).escape == EscapeAfter(e.escape, ch)
  {}

  /** Without steps down any keys are safe. */
  lemma {:induction false} SafeWithoutDown(e: Editor, keys: seq<char>, maxLen: nat)
    requires e.Proper() && NoArrow('B', e.escape, keys)
    ensures Safe(e, keys, maxLen)
    decreases keys
  {
    if keys != [] && !Ends(e, keys[0], maxLen) {
      EscapePressed(e, keys[0]);
      SafeWithoutDown(e.Press(keys[0]), keys[1..], maxLen);
    }
  }

  /** So are any keys without steps to the left: the cursor stays at the end. */
  lemma {:induction false} SafeWithoutLeft(e: Editor, keys: seq<char>, maxLen: nat)
    requires e.Proper() && e.after == "" && NoArrow('D', e.escape, keys)
    ensures Safe(e, keys, maxLen) && Session(e, keys, maxLen).after == ""
    decreases keys
  {
    if keys != [] && !Ends(e, keys[0], maxLen) {
      StaysAtEnd(e, keys[0]);
      EscapePressed(e, keys[0]);
      SafeWithoutLeft(e.Press(keys[0]), keys[1..], maxLen);
    }
  }

  lemma StaysAtEnd(e: Editor, ch: char)
    requires e.Proper() && e.after == "" && !(e.escape && ch == 'D')
    ensures e.DownKeepsCursor() && e.Press(ch).after == ""
  {}

  lemma SessionStep(e: Editor, keys: seq<char>, maxLen: nat)
    requires e.Proper() && keys != [] && Safe(e, keys, maxLen)
    ensures Ends(e, keys[0], maxLen) ==> Session(e, keys, maxLen) == e
    ensures !Ends(e, keys[0], maxLen) ==>
              && (e.escape && keys[0] == 'B' ==> e.DownKeepsCursor())
              && Safe(e.Press(keys[0]), keys[1..], maxLen)
              && Session(e, keys, maxLen) == Session(e.Press(keys[0]), keys[1..], maxLen)
              && Finishes(e, keys, maxLen) == Finishes(e.Press(keys[0]), keys[1..], maxLen)
  {}

  /** No line that is used contains NUL, so all of them can be stored with NUL at the end. */
  predicate Plain(e: Editor) {
    && NUL !in e.before && NUL !in e.after && (e.depth > 0 ==> NUL !in e.saved)
    && forall i :: 0 <= i < |e.history| ==> NUL !in e.history[i]
  }

  lemma PressStaysPlain(e: Editor, ch: char)
    requires e.Proper() && (e.escape && ch == 'B' ==> e.DownKeepsCursor()) && Plain(e) && ch != NUL
    ensures Plain(e.Press(ch))
  {
    if e.escape && ch == 'A' { UpStaysPlain(e); }
    if e.escape && ch == 'B' { DownStaysPlain(e); }
  }

  lemma KeptStaysPlain(e: Editor)
    requires e.Proper() && Plain(e)
    ensures Plain(e.Kept()) && NUL !in e.Line()
  {}

  lemma UpStaysPlain(e: Editor)
    requires e.Proper() && Plain(e)
    ensures Plain(e.Up())
  {
    KeptStaysPlain(e);
  }

  lemma DownStaysPlain(e: Editor)
    requires e.Proper() && e.DownKeepsCursor() && Plain(e)
    ensures Plain(e.Down())
  {
    KeptStaysPlain(e);
  }

  lemma {:induction false} SessionStaysPlain(e: Editor, keys: seq<char>, maxLen: nat)
    requires e.Proper() && Safe(e, keys, maxLen) && Plain(e) && NUL !in keys
    ensures Plain(Session(e, keys, maxLen))
    decreases keys
  {
    if keys != [] && !Ends(e, keys[0], maxLen) {
      assert keys[0] in keys;
      PressStaysPlain(e, keys[0]);
      SessionStaysPlain(e.Press(keys[0]), keys[1..], maxLen);
    }
  }

  datatype History = History(rows: seq<string>, top: nat, rollover: bool) {
    predicate Proper() { |rows| == HISTORY && top < HISTORY }

    /** Adds a line unless it repeats the one before. */
    function Add(line: string): (h: History)
      requires Proper()
      ensures h.Proper()
    {
      var next :=
        if (top == 0 && !rollover) || rows[(HISTORY + top - 1) % HISTORY] != line
        then History(rows[top := line], (top + 1) % HISTORY, rollover)
        else this;
      if next.top == 0 then next.(rollover := true) else next
    }

    function AddAll(lines: seq<string>): (h: History)
      requires Proper()
      ensures h.Proper()
    {
      if lines == [] then this else AddAll(lines[..|lines| - 1]).Add(lines[|lines| - 1])
    }
  }

  lemma AddStaysPlain(h: History, line: string)
    requires h.Proper() && NUL !in line && forall i :: 0 <= i < HISTORY ==> NUL !in h.rows[i]
    ensures forall i :: 0 <= i < HISTORY ==> NUL !in h.Add(line).rows[i]
  {}

  /** These lines without those that repeat the one before. */
  function WithoutRepeats(lines: seq<string>): (kept: seq<string>)
    ensures lines != [] ==> kept != [] && kept[|kept| - 1] == lines[|lines| - 1]
  {
    if lines == [] then []
    else
      var before, line := WithoutRepeats(lines[..|lines| - 1]), lines[|lines| - 1];
      if before != [] && before[|before| - 1] == line then before else before + [line]
  }

  /** Until it is full, a history that starts empty holds the lines typed, without immediate repeats. */
  lemma {:induction false} HistoryOfLines(h: History, lines: seq<string>)
    requires h.Proper() && h.top == 0 && !h.rollover && |WithoutRepeats(lines)| < HISTORY
    ensures var r, kept := h.AddAll(lines), WithoutRepeats(lines);
            r.top == |kept| && r.rows[..r.top] == kept && !r.rollover
  {
    if lines != [] {
      var before := lines[..|lines| - 1];
      HistoryOfLines(h, before);
      LineAdded(h.AddAll(before), WithoutRepeats(before), lines[|lines| - 1]);
    }
  }

  lemma LineAdded(h: History, kept: seq<string>, line: string)
    requires h.Proper() && !h.rollover && h.top == |kept| && h.rows[..h.top] == kept
    ensures kept != [] && kept[|kept| - 1] == line ==> h.Add(line) == h
    ensures (kept == [] || kept[|kept| - 1] != line) && |kept| + 1 < HISTORY ==>
              var r := h.Add(line);
              !r.rollover && r.top == |kept| + 1 && r.rows[..r.top] == kept + [line]
  {
    if kept != [] {
      assert (HISTORY + h.top - 1) % HISTORY == h.top - 1;
    }
  }

  /** A step down shows the row below, or the line that was typed. */
  lemma DownShape(e: Editor, rows: seq<string>) returns (line: string)
    requires e.Proper() && e.depth > 0 && rows == e.history[e.top - e.depth := e.Line()]
    ensures line == if e.depth > 1 then rows[e.top - (e.depth - 1)] else e.saved
    ensures e.DownKeepsCursor() <==> |e.after| <= |line| && line[|line| - |e.after|..] == e.after
    ensures e.DownKeepsCursor() ==>
              var d := e.Down();
              && d.Proper() && d.Line() == line
              && d == Editor(d.before, e.after, e.escape, rows, e.top, e.depth - 1, e.saved)
  {
    line := e.Kept().(depth := e.depth - 1).Recalled();
    if e.DownKeepsCursor() {
      assert line == line[..|line| - |e.after|] + line[|line| - |e.after|..];
    }
  }

  // ---------- The program ----------

  class Console {
    const maxLen: nat
    const ln: array<char>
    const tempStr: array<char>
    const pHist: array<string>
    var chIdx: nat
    var cPos: nat
    var isDir: bool
    var currpHist: nat
    var temppHist: string
    var idxpHist: nat
    var pHistIsRollover: bool
    ghost var ed: Editor

    /** The console as the program starts: nothing stored. */
    constructor (maxLen: nat)
      requires 1 <= maxLen <= SCRATCH
      ensures Sized() && this.maxLen == maxLen && fresh(ln) && fresh(tempStr) && fresh(pHist)
      ensures idxpHist == 0 && !pHistIsRollover && temppHist == "" && forall i :: 0 <= i < HISTORY ==> pHist[i] == ""
    {
      this.maxLen := maxLen;
      ln, tempStr := new char[maxLen](_ => NUL), new char[SCRATCH](_ => NUL);
      pHist := new string[HISTORY](_ => "");
      chIdx, cPos, currpHist, isDir := 0, 0, 0, false;
      temppHist, idxpHist, pHistIsRollover := "", 0, false;
      ed := Editor("", "", false, [], 0, 0, "");
    }

    /** The buffers, and a history that lines of this length have filled. */
    ghost predicate Sized()
      reads this, pHist
    {
      && ln.Length == maxLen && 1 <= maxLen <= SCRATCH && tempStr.Length == SCRATCH && pHist.Length == HISTORY
      && ln != tempStr && idxpHist < HISTORY && |temppHist| < maxLen
      && forall i :: 0 <= i < HISTORY ==> |pHist[i]| < maxLen
    }

    /** The scratch buffer holds `after` backwards. */
    ghost predicate Scratched(after: string)
      requires tempStr.Length == SCRATCH
      reads this, tempStr
    {
      cPos == |after| <= SCRATCH && forall i :: 0 <= i < cPos ==> tempStr[i] == after[cPos - 1 - i]
    }

    /** The buffers hold `line`, ending in NUL, and what `e` says besides its text before the cursor. */
    ghost predicate Shows(line: string, e: Editor)
      reads this, ln, tempStr, pHist
    {
      && Sized() && chIdx < maxLen && ln[chIdx] == NUL && ln[..chIdx] == line
      && Scratched(e.after) && e.Proper() && e.escape == isDir
      && e.history == pHist[..] && e.top == idxpHist && e.depth == currpHist && e.saved == temppHist
    }

    /** The buffers hold the editor `e`: the end of its line is kept backwards as well. */
    ghost predicate Holds(e: Editor)
      reads this, ln, tempStr, pHist
    {
      Shows(e.Line(), e)
    }

    ghost predicate Valid()
      reads this, ln, tempStr, pHist
    {
      Holds(ed)
    }

    /** The scratch buffer repeats the line read backwards from its end. */
    lemma ScratchMirrorsLine(i: nat)
      requires Valid() && i < cPos
      ensures chIdx - cPos == |ed.before| && i < chIdx && tempStr[i] == ln[chIdx - 1 - i]
    {
      assert ln[..chIdx][chIdx - 1 - i] == ed.after[cPos - 1 - i];
    }

    /** The line buffer holds the text before the cursor and then the text after it. */
    lemma Halves()
      requires Valid()
      ensures cPos <= chIdx < ln.Length
      ensures chIdx - cPos == |ed.before|
      ensures ln[..chIdx - cPos] == ed.before && ln[chIdx - cPos..chIdx] == ed.after
      ensures cPos < chIdx ==> ln[..chIdx - cPos - 1] == ed.before[..|ed.before| - 1]
    {
      var line := ln[..chIdx];
      assert line == ed.before + ed.after;
      if cPos < chIdx {
        assert ln[..chIdx - cPos - 1] == line[..|ed.before| - 1] == ed.before[..|ed.before| - 1];
      }
      assert ln[..chIdx - cPos] == line[..|ed.before|] && ln[chIdx - cPos..chIdx] == line[|ed.before|..];
    }

    /** The loop of the backspace key: copies the text after the cursor one place to the left. */
    method ShiftLeft()
      requires Valid() && cPos < chIdx
      modifies ln
      ensures ln[..chIdx - 1] == ed.before[..|ed.before| - 1] + ed.after
    {
      ghost var at := chIdx - cPos;
      assert ln[..at - 1] == ed.before[..at - 1];
      var x := 0;
      while x < cPos
        invariant 0 <= x <= cPos
        invariant ln[..at - 1] == ed.before[..at - 1]
        invariant forall j :: 0 <= j < x ==> ln[at - 1 + j] == ed.after[j]
      {
        ln[chIdx - cPos + x - 1] := tempStr[cPos - x - 1];
        x := x + 1;
      }
      assert ln[at - 1..chIdx - 1] == ed.after;
    }

    method Backspace()
      requires Valid()
      modifies this`chIdx, this`ed, ln
      ensures Valid() && ed == old(ed).Press(BACKSPACE)
      ensures old(cPos < chIdx) ==>
                && chIdx == old(chIdx) - 1
                && ln[..chIdx] == old(ln[..chIdx - cPos - 1]) + old(ln[chIdx - cPos..chIdx])
      ensures old(cPos == chIdx) ==> chIdx == old(chIdx) && ln[..chIdx] == old(ln[..chIdx])
    {
      Halves();
      if chIdx > 0 && cPos < chIdx {
        ghost var line := ed.before[..|ed.before| - 1] + ed.after;
        ShiftLeft();
        ed := ed.Press(BACKSPACE);
        chIdx := chIdx - 1;
        ln[chIdx] := NUL;
        assert ln[..chIdx] == line;
      }
    }

    /** An ordinary key inside the line: the text after the cursor goes one place to the right. */
    method ShiftRight(ch: char)
      requires Valid() && chIdx + 1 < maxLen && cPos != 0
      modifies ln
      ensures ln[..chIdx + 1] == ed.before + [ch] + ed.after
    {
      Halves();
      ln[chIdx - cPos] := ch;
      CopyBehind(ed.before + [ch], ed.after);
    }

    /** The loop of that key: copies the text after the cursor from the scratch buffer. */
    method CopyBehind(ghost first: string, ghost after: string)
      requires ln.Length == maxLen <= SCRATCH == tempStr.Length && ln != tempStr && Scratched(after)
      requires cPos <= chIdx && chIdx + 1 < maxLen && ln[..chIdx - cPos + 1] == first
      modifies ln
      ensures ln[..chIdx + 1] == first + after
    {
      ghost var at := chIdx - cPos + 1;
      var x := 1;
      while x <= cPos
        invariant 1 <= x <= cPos + 1
        invariant ln[..at] == first
        invariant forall j :: 0 <= j < x - 1 ==> ln[at + j] == after[j]
      {
        ln[chIdx - cPos + x] := tempStr[cPos - x];
        x := x + 1;
      }
      assert ln[at..chIdx + 1] == after;
      assert ln[..chIdx + 1] == ln[..at] + ln[at..chIdx + 1];
    }

    /** Puts the character where the cursor is, and NUL behind the line. */
    method Place(ch: char)
      requires Valid() && chIdx + 1 < maxLen
      modifies ln
      ensures ln[..chIdx + 1] == ed.before + [ch] + ed.after && ln[chIdx + 1] == NUL
      ensures ln[..chIdx + 1] == old(ln[..chIdx - cPos]) + [ch] + old(ln[chIdx - cPos..chIdx])
    {
      Halves();
      if cPos != 0 {
        ShiftRight(ch);
      } else {
        ln[chIdx] := ch;
      }
      ghost var line := ln[..chIdx + 1];
      ln[chIdx + 1] := NUL;
      assert ln[..chIdx + 1] == line;
    }

    method Insert(ch: char)
      requires Valid() && chIdx + 1 < maxLen && !isDir && ch != BACKSPACE && ch != ESCAPE
      modifies this`chIdx, this`ed, ln
      ensures Valid() && ed == old(ed).Press(ch)
      ensures chIdx == old(chIdx) + 1
      ensures ln[..chIdx] == old(ln[..chIdx - cPos]) + [ch] + old(ln[chIdx - cPos..chIdx])
    {
      PressByKey(ed, ch);
      InsertText(ch);
    }

    method InsertText(ch: char)
      requires Valid() && chIdx + 1 < maxLen
      modifies this`chIdx, this`ed, ln
      ensures Valid() && ed == old(ed).(before := old(ed).before + [ch])
      ensures chIdx == old(chIdx) + 1
      ensures ln[..chIdx] == old(ln[..chIdx - cPos]) + [ch] + old(ln[chIdx - cPos..chIdx])
    {
      Place(ch);
      chIdx := chIdx + 1;
      ed := ed.(before := ed.before + [ch]);
    }

    /** Copies a line that ends in NUL, with its end, into the line buffer. */
    method CopyToLine(s: string)
      requires Sized() && |s| < maxLen
      modifies this`chIdx, ln
      ensures chIdx == |s| && ln[..chIdx] == s && ln[chIdx] == NUL
    {
      forall i | 0 <= i < |s| { ln[i] := s[i]; }
      ln[|s|] := NUL;
      chIdx := |s|;
    }

    method HistoryUp()
      requires Valid()
      modifies this`chIdx, this`cPos, this`currpHist, this`temppHist, this`ed, ln, pHist
      ensures Valid() && ed == old(ed).Up()
      ensures old(currpHist == idxpHist) ==>
                && chIdx == old(chIdx) && cPos == old(cPos) && currpHist == old(currpHist)
                && temppHist == old(temppHist) && ln[..] == old(ln[..]) && pHist[..] == old(pHist[..])
      ensures old(currpHist < idxpHist) ==>
                && currpHist == old(currpHist) + 1 && cPos == 0
                && ln[..chIdx] == old(pHist[..])[idxpHist - currpHist]
                && (if old(currpHist) == 0 then temppHist == old(ln[..chIdx]) && pHist[..] == old(pHist[..])
                    else temppHist == old(temppHist)
                         && pHist[..] == old(pHist[..])[idxpHist - old(currpHist) := old(ln[..chIdx])])
    {
      if currpHist < idxpHist {
        ghost var e := ed.Up();
        cPos := 0;
        if currpHist != 0 {
          pHist[idxpHist - currpHist] := ln[..chIdx];
        }
        if currpHist == 0 {
          temppHist := ln[..chIdx];
        }
        currpHist := currpHist + 1;
        assert pHist[idxpHist - currpHist] == e.Line();
        ed := e;
        CopyToLine(pHist[idxpHist - currpHist]);
      }
    }

    /**
     * The step down leaves the cursor alone, and the scratch buffer with it. The buffers still hold
     * an editor exactly when the line that comes back ends with the text after the cursor.
     */
    method HistoryDown()
      requires Valid()
      modifies this`chIdx, this`currpHist, this`ed, ln, pHist
      ensures old(ed).DownKeepsCursor() ==> Valid() && ed == old(ed).Down()
      ensures forall e: Editor :: Holds(e) ==> old(ed).DownKeepsCursor()
      ensures old(currpHist) == 0 ==>
                chIdx == old(chIdx) && currpHist == 0 && ln[..] == old(ln[..]) && pHist[..] == old(pHist[..])
      ensures old(currpHist) > 0 ==>
                && currpHist == old(currpHist) - 1
                && chIdx < ln.Length
                && ln[..chIdx] == (if currpHist == 0 then temppHist else pHist[idxpHist - currpHist])
                && pHist[..] == old(pHist[..])[idxpHist - old(currpHist) := old(ln[..chIdx])]
    {
      if currpHist != 0 {
        ghost var e := ed;
        WriteBack();
        ghost var line := DownShape(e, pHist[..]);
        ghost var shape := Editor("", e.after, isDir, pHist[..], idxpHist, currpHist - 1, temppHist);
        RecallNext(line, shape, if e.DownKeepsCursor() then e.Down() else e);
        OnlyItsEnd(line, shape);
      }
    }

    /** Writes the line back to the row the walk stands at. */
    method WriteBack()
      requires Valid() && currpHist != 0
      modifies pHist
      ensures Sized() && pHist[..] == ed.history[idxpHist - currpHist := ed.Line()]
    {
      pHist[idxpHist - currpHist] := ln[..chIdx];
    }

    /** The second half of the step down: fetches the row below, or the line that was typed. */
    method RecallNext(ghost line: string, ghost e: Editor, ghost next: Editor)
      requires Sized() && currpHist > 0 && Scratched(e.after) && e.Proper() && e.escape == isDir
      requires e.history == pHist[..] && e.top == idxpHist && e.depth == currpHist - 1 && e.saved == temppHist
      requires line == if e.depth != 0 then e.history[e.top - e.depth] else e.saved
      modifies this`chIdx, this`currpHist, this`ed, ln
      ensures Shows(line, e)
      ensures ed == next && (next.Line() == line && next == e.(before := next.before) ==> Valid())
    {
      currpHist := currpHist - 1;
      ed := next;
      if currpHist != 0 {
        CopyToLine(pHist[idxpHist - currpHist]);
      } else {
        CopyToLine(temppHist);
      }
    }

    /** The scratch buffer tells what the text after the cursor is, and that must end the line. */
    lemma OnlyItsEnd(line: string, e: Editor)
      requires Shows(line, e)
      ensures forall f: Editor :: Holds(f) ==> |e.after| <= |line| && line[|line| - |e.after|..] == e.after
    {
      forall f: Editor | Holds(f) ensures |e.after| <= |line| && line[|line| - |e.after|..] == e.after {
        forall i | 0 <= i < |e.after| ensures f.after[i] == e.after[i] {
          assert tempStr[cPos - 1 - i] == e.after[i];
        }
        assert f.after == e.after;
        assert line == f.before + f.after;
      }
    }

    method CursorRight()
      requires Valid()
      modifies this`cPos, this`ed
      ensures Valid() && ed == old(ed).Right()
      ensures cPos == if old(cPos) > 0 then old(cPos) - 1 else 0
    {
      if cPos > 0 {
        ed := ed.Right();
        cPos := cPos - 1;
      }
    }

    method CursorLeft()
      requires Valid()
      modifies this`cPos, this`ed, tempStr
      ensures Valid() && ed == old(ed).Left()
      ensures cPos == if old(cPos) < chIdx then old(cPos) + 1 else old(cPos)
    {
      if cPos < chIdx {
        ScratchEnd();
        ed := ed.Left();
        tempStr[cPos] := ln[chIdx - cPos - 1];
        cPos := cPos + 1;
      }
    }

    /** The character before the cursor. */
    lemma ScratchEnd()
      requires Valid() && cPos < chIdx
      ensures |ed.before| > 0 && ln[chIdx - cPos - 1] == ed.before[|ed.before| - 1]
      ensures ln[..chIdx] == ed.Left().Line()
    {
      assert ln[..chIdx][chIdx - cPos - 1] == ed.before[|ed.before| - 1];
    }

    /** The letter of an arrow key. */
    method Arrow(ch: char)
      requires Valid() && isDir && ch != BACKSPACE && ch != ESCAPE && ch != '['
      modifies this`chIdx, this`cPos, this`currpHist, this`temppHist, this`isDir, this`ed, ln, tempStr, pHist
      ensures (ch == 'B' ==> old(ed).DownKeepsCursor()) ==> Valid() && ed == old(ed).Press(ch)
      ensures ch == 'B' ==> forall e: Editor :: Holds(e) ==> old(ed).DownKeepsCursor()
      ensures !isDir
    {
      if ch == 'B' {
        HistoryDown();
        LetterDone();
        return;
      }
      if ch == 'A' {
        HistoryUp();
      } else if ch == 'C' {
        CursorRight();
      } else if ch == 'D' {
        CursorLeft();
      }
      LetterDone();
    }

    /** The letter of an arrow key ends the sequence that began with escape. */
    method LetterDone()
      modifies this`isDir, this`ed
      ensures ed == old(ed).(escape := false) && (old(Valid()) ==> Valid()) && !isDir
      ensures forall e: Editor :: Holds(e) ==> old(Holds(e.(escape := isDir)))
    {
      isDir := false;
      ed := ed.(escape := false);
    }

    /**
     * One key on an unfinished line. Only a step down can lose the place of the cursor, and does so
     * exactly if the line that comes back does not end with the text after it.
     */
    method Key(ch: char)
      requires Valid() && chIdx + 1 < maxLen
      modifies this`chIdx, this`cPos, this`currpHist, this`temppHist, this`isDir, this`ed, ln, tempStr, pHist
      ensures (old(isDir) && ch == 'B' ==> old(ed).DownKeepsCursor()) ==> Valid() && ed == old(ed).Press(ch)
      ensures old(isDir) && ch == 'B' ==> forall e: Editor :: Holds(e) ==> old(ed).DownKeepsCursor()
      ensures !old(isDir) && ch != 127 as char && ch != 27 as char ==>
                && chIdx == old(chIdx) + 1 && cPos == old(cPos)
                && ln[..chIdx] == old(ln[..chIdx - cPos]) + [ch] + old(ln[chIdx - cPos..chIdx])
      ensures ch == 127 as char && old(cPos < chIdx) ==>
                && chIdx == old(chIdx) - 1 && cPos == old(cPos)
                && ln[..chIdx] == old(ln[..chIdx - cPos - 1]) + old(ln[chIdx - cPos..chIdx])
      ensures isDir <==> if ch == 127 as char then old(isDir) else ch == 27 as char || (old(isDir) && ch == '[')
    {
      if ch == BACKSPACE {
        Backspace();
      } else if ch == ESCAPE {
        isDir := true;
        ed := ed.(escape := true);
      } else if isDir {
        if ch == '[' {
          isDir := true;
        } else {
          Arrow(ch);
        }
      } else {
        Insert(ch);
      }
    }

    /** The end of a line: the history grows. */
    method StoreLine()
      requires Sized() && chIdx < maxLen
      modifies this`idxpHist, this`pHistIsRollover, pHist
      ensures Sized()
      ensures History(pHist[..], idxpHist, pHistIsRollover)
           == History(old(pHist[..]), old(idxpHist), old(pHistIsRollover)).Add(ln[..chIdx])
      ensures var at, last := old(idxpHist), if old(idxpHist) == 0 then 255 else old(idxpHist) - 1;
              if (at == 0 && !old(pHistIsRollover)) || old(pHist[last]) != ln[..chIdx]
              then pHist[..] == old(pHist[..])[at := ln[..chIdx]] && idxpHist == if at == 255 then 0 else at + 1
              else pHist[..] == old(pHist[..]) && idxpHist == at
      ensures pHistIsRollover <==> old(pHistIsRollover) || idxpHist == 0
    {
      if (idxpHist == 0 && !pHistIsRollover) || pHist[(HISTORY + idxpHist - 1) % HISTORY] != ln[..chIdx] {
        pHist[idxpHist] := ln[..chIdx];
        idxpHist := (idxpHist + 1) % HISTORY;
      }
      if idxpHist == 0 {
        pHistIsRollover := true;
      }
    }

    /**
     * Reads keys until one ends the line. `finished` is false when the keys run out first; the
     * program would wait for the next one.
     */
    method GetLine(keys: seq<char>) returns (finished: bool)
      requires Sized()
      requires Safe(Editor("", "", false, pHist[..], idxpHist, 0, temppHist), keys, maxLen)
      requires NUL !in keys && forall i :: 0 <= i < HISTORY ==> NUL !in pHist[i]
      modifies this`chIdx, this`cPos, this`currpHist, this`temppHist, this`isDir, this`idxpHist, this`pHistIsRollover,
               this`ed, ln, tempStr, pHist
      ensures Sized()
      ensures ed == Session(Editor("", "", false, old(pHist[..]), old(idxpHist), 0, old(temppHist)), keys, maxLen)
      ensures finished
         <==> Finishes(Editor("", "", false, old(pHist[..]), old(idxpHist), 0, old(temppHist)), keys, maxLen)
      ensures chIdx < maxLen && ln[..chIdx] == ed.Line() && ln[chIdx] == NUL
      ensures forall text :: IsText(text) && |text| < maxLen && keys == text + ['\n'] ==>
                finished && ln[..chIdx] == text
      ensures NUL !in ed.Line() && forall i :: 0 <= i < HISTORY ==> NUL !in pHist[i]
      ensures |ed.history| == HISTORY && ed.top < HISTORY
      ensures History(pHist[..], idxpHist, pHistIsRollover)
           == if finished then History(ed.history, ed.top, old(pHistIsRollover)).Add(ed.Line())
              else History(ed.history, ed.top, old(pHistIsRollover))
    {
      Begin();
      forall text | IsText(text) && |text| < maxLen && keys == text + ['\n']
        ensures Finishes(ed, keys, maxLen) && Session(ed, keys, maxLen) == ed.(before := text)
      {
        TextIsTheLine(ed, text, keys, maxLen);
      }
      SessionStaysPlain(ed, keys, maxLen);
      finished := ReadKeys(keys);
      if finished {
        Finish();
      }
    }

    /** An empty line. */
    method Begin()
      requires Sized()
      modifies this`chIdx, this`cPos, this`currpHist, this`isDir, this`ed, ln
      ensures Valid() && ed == Editor("", "", false, pHist[..], idxpHist, 0, temppHist)
    {
      chIdx, cPos, currpHist, isDir := 0, 0, 0, false;
      ln[0] := NUL;
      ed := Editor("", "", false, pHist[..], idxpHist, 0, temppHist);
    }

    /** The end of a finished line: the history grows. */
    method Finish()
      requires Valid() && Plain(ed)
      modifies this`idxpHist, this`pHistIsRollover, pHist
      ensures Sized() && forall i :: 0 <= i < HISTORY ==> NUL !in pHist[i]
      ensures History(pHist[..], idxpHist, pHistIsRollover)
           == History(ed.history, ed.top, old(pHistIsRollover)).Add(ed.Line())
    {
      AddStaysPlain(History(ed.history, ed.top, pHistIsRollover), ed.Line());
      StoreLine();
    }

    /** The loop over the keys, up to the one that ends the line. */
    method ReadKeys(keys: seq<char>) returns (finished: bool)
      requires Valid() && Safe(ed, keys, maxLen)
      modifies this`chIdx, this`cPos, this`currpHist, this`temppHist, this`isDir, this`ed, ln, tempStr, pHist
      ensures Valid() && ed == Session(old(ed), keys, maxLen)
      ensures finished <==> old(Finishes(ed, keys, maxLen))
    {
      ghost var rest := keys;
      var k := 0;
      while k < |keys|
        invariant 0 <= k <= |keys| && rest == keys[k..]
        invariant Valid() && Safe(ed, rest, maxLen)
        invariant Session(ed, rest, maxLen) == old(Session(ed, keys, maxLen))
        invariant Finishes(ed, rest, maxLen) == old(Finishes(ed, keys, maxLen))
        decreases |keys| - k
      {
        var ended := Turn(keys[k], rest);
        if ended {
          return true;
        }
        rest := rest[1..];
        k := k + 1;
      }
      return false;
    }

    /** One turn of that loop, up to the end of the line: tells whether this key, the first of `rest`, ends it. */
    method Turn(ch: char, ghost rest: seq<char>) returns (ended: bool)
      requires Valid() && rest != [] && ch == rest[0] && Safe(ed, rest, maxLen)
      modifies this`chIdx, this`cPos, this`currpHist, this`temppHist, this`isDir, this`ed, ln, tempStr, pHist
      ensures Valid()
      ensures ended ==> ed == old(ed) && Session(ed, rest, maxLen) == ed
      ensures !ended ==> Safe(ed, rest[1..], maxLen)
                         && Session(ed, rest[1..], maxLen) == Session(old(ed), rest, maxLen)
      ensures Finishes(old(ed), rest, maxLen) <==> ended || Finishes(ed, rest[1..], maxLen)
    {
      assert |ed.Line()| == chIdx;
      SessionStep(ed, rest, maxLen);
      if ch == NEWLINE || chIdx == maxLen - 1 {
        return true;
      }
      Key(ch);
      return false;
    }
  }
}
