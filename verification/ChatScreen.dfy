/** The chat window's cursor arithmetic (project/client.c) on a terminal with
    the cursor movements of sections 8.3.22 and 8.3.19 of ECMA-48. */
module ChatScreen {
  const WIDTH: nat := 80
  const SEPARATOR_ROW: nat := 15
  const INPUT_ROW: nat := 16

  /** rows of WIDTH characters, and the cursor. */
  datatype Term = Term(rows: seq<string>, row: nat, col: nat)

  function Fill(c: char, n: nat): (r: string)
    ensures |r| == n && forall i :: 0 <= i < n ==> r[i] == c
  {
    seq(n, _ => c)
  }

  ghost predicate Proper(t: Term) {
    && INPUT_ROW + 1 < |t.rows| && t.row < |t.rows| && t.col <= WIDTH
    && forall i :: 0 <= i < |t.rows| ==> |t.rows[i]| == WIDTH
  }

  /** line with text written over it from column c on. */
  function Overlay(line: string, c: nat, text: string): (r: string)
    requires c + |text| <= |line|
    ensures |r| == |line| && r[c..c + |text|] == text
    ensures r[..c] == line[..c] && r[c + |text|..] == line[c + |text|..]
  {
    line[..c] + text + line[c + |text|..]
  }

  /** A newline; at the bottom the screen scrolls. */
  function Newline(t: Term): (r: Term)
    requires Proper(t)
    ensures Proper(r) && |r.rows| == |t.rows|
  {
    if t.row + 1 < |t.rows| then Term(t.rows, t.row + 1, 0)
    else Term(t.rows[1..] + [Fill(' ', WIDTH)], t.row, 0)
  }

  /** putchar of a printed character; behind the last column it wraps. */
  function Put(t: Term, c: char): (r: Term)
    requires Proper(t)
    ensures Proper(r) && |r.rows| == |t.rows|
  {
    var u := if t.col < WIDTH then t else Newline(t);
    Term(u.rows[u.row := Overlay(u.rows[u.row], u.col, [c])], u.row, u.col + 1)
  }

  /** printf of a text. */
  function Print(t: Term, text: string): (r: Term)
    requires Proper(t)
    ensures Proper(r) && |r.rows| == |t.rows|
    decreases |text|
  {
    if text == [] then t else Print(Put(t, text[0]), text[1..])
  }

  lemma OverlayMore(line: string, c: nat, text: string)
    requires text != [] && c + |text| <= |line|
    ensures Overlay(Overlay(line, c, [text[0]]), c + 1, text[1..]) == Overlay(line, c, text)
  {
    var line1 := Overlay(line, c, [text[0]]);
    assert line1[..c + 1] == line[..c] + [text[0]];
    assert line1[c + |text|..] == line[c + |text|..];
    assert text == [text[0]] + text[1..];
  }

  /** A text that fits the row overlays it. */
  lemma {:induction false} PrintFits(t: Term, text: string)
    requires Proper(t) && t.col + |text| <= WIDTH
    ensures Print(t, text) == Term(t.rows[t.row := Overlay(t.rows[t.row], t.col, text)], t.row, t.col + |text|)
    decreases |text|
  {
    var line := t.rows[t.row];
    if text == [] {
      assert Overlay(line, t.col, text) == line;
      assert t.rows[t.row := line] == t.rows;
    } else {
      PrintFits(Put(t, text[0]), text[1..]);
      OverlayMore(line, t.col, text);
    }
  }

  /** A text that does not ends further down, or on the bottom row. */
  lemma {:induction false} PrintWraps(t: Term, text: string)
    requires Proper(t)
    ensures t.row <= Print(t, text).row
    ensures t.col + |text| > WIDTH ==> t.row < Print(t, text).row || Print(t, text).row == |t.rows| - 1
    decreases |text|
  {
    if text != [] { PrintWraps(Put(t, text[0]), text[1..]); }
  }

  /** CUU and CUD: n rows, stopping at the edge. */
  function Up(t: Term, n: int): (r: Term)
    requires 1 <= n && Proper(t)
    ensures Proper(r)
  {
    Term(t.rows, if t.row < n then 0 else t.row - n, t.col)
  }

  function Down(t: Term, n: int): (r: Term)
    requires 1 <= n && Proper(t)
    ensures Proper(r)
  {
    Term(t.rows, if t.row + n < |t.rows| then t.row + n else |t.rows| - 1, t.col)
  }

  /** A screen row that shows text from column c on. */
  function Line(c: nat, text: string): string {
    Fill(' ', c) + text + Fill(' ', if c + |text| < WIDTH then WIDTH - c - |text| else 0)
  }

  function Clear(t: Term): Term {
    Term(seq(|t.rows|, _ => Fill(' ', WIDTH)), 0, 0)
  }

  /** What the window shows: the separator, the message lines since the last
      clear in consecutive rows, and blank rows between these and the separator. */
  ghost predicate Drawn(t: Term, rowCount: int, first: nat, lines: seq<string>) {
    && Proper(t)
    && t.rows[SEPARATOR_ROW] == Fill('=', WIDTH)
    && 0 <= rowCount && first + |lines| + rowCount == SEPARATOR_ROW
    && (forall k :: 0 <= k < |lines| ==> t.rows[first + k] == lines[k])
    && (forall i :: first + |lines| <= i < SEPARATOR_ROW ==> t.rows[i] == Fill(' ', WIDTH))
  }

  /** The input row shows what has been typed, and the cursor is behind it. */
  ghost predicate Input(t: Term, typed: string)
    requires Proper(t)
  {
    |typed| <= 75 && t.row == INPUT_ROW && t.col == |typed| &&
    t.rows[INPUT_ROW][..75] == typed + Fill(' ', 75 - |typed|)
  }

  /** The window between two events. */
  ghost predicate AtRest(t: Term, rowCount: int, first: nat, lines: seq<string>, typed: string) {
    Drawn(t, rowCount, first, lines) && Input(t, typed)
  }

  /** One more character typed. */
  lemma TypedMore(t: Term, typed: string, c: char)
    requires Proper(t) && Input(t, typed) && |typed| < 75
    ensures Input(Print(t, [c]), typed + [c])
  {
    PrintFits(t, [c]);
    var line, more := t.rows[INPUT_ROW], Overlay(t.rows[INPUT_ROW], t.col, [c]);
    var n := |typed|;
    assert line[..75][..n] == typed && line[..n] == line[..75][..n];
    assert more[..n] == line[..n] && more[n] == c by { assert more[n..n + 1][0] == c; }
    forall i | n + 1 <= i < 75 ensures more[i] == ' ' {
      assert more[i] == more[n + 1..][i - n - 1] == line[n + 1..][i - n - 1];
      assert line[i] == line[..75][i];
    }
    forall i | 0 <= i < 75 ensures more[..75][i] == ((typed + [c]) + Fill(' ', 75 - (n + 1)))[i] {
      if i < n { assert more[i] == more[..n][i]; }
    }
  }

  /** A message printed, the way back from its row to the input row, n rows
      below the next, and that row wiped. */
  function Finished(t: Term, text: string, n: int): Term
    requires Proper(t) && 1 <= n
  {
    Newline(Up(Print(Down(Newline(Print(t, text)), n), Fill(' ', 75)), 1))
  }

  /** A message that fits its row overlays it, and the cursor ends on the input
      row, the only other one to change. */
  lemma FinishedFits(t: Term, text: string, n: int)
    requires Proper(t) && 1 <= n && t.row + 1 + n == INPUT_ROW && t.col + |text| <= WIDTH
    ensures var u := Finished(t, text, n);
            && Proper(u) && |u.rows| == |t.rows| && u.row == INPUT_ROW && u.col == 0
            && u.rows[t.row] == Overlay(t.rows[t.row], t.col, text) && Input(u, "")
            && forall i :: 0 <= i < |t.rows| && i != t.row && i != INPUT_ROW ==> u.rows[i] == t.rows[i]
  {
    PrintFits(t, text);
    var t1 := Down(Newline(Print(t, text)), n);
    assert t1.row == INPUT_ROW && t1.col == 0;
    PrintFits(t1, Fill(' ', 75));
    var line := Overlay(t1.rows[INPUT_ROW], 0, Fill(' ', 75));
    assert line[..75] == line[0..0 + |Fill(' ', 75)|] == Fill(' ', 75) == "" + Fill(' ', 75);
  }

  /** One that does not leaves the cursor below the input row. */
  lemma FinishedOverflows(t: Term, text: string, n: int)
    requires Proper(t) && 1 <= n && t.row + 1 + n == INPUT_ROW && t.col + |text| > WIDTH
    ensures var u := Finished(t, text, n); Proper(u) && u.row > INPUT_ROW && u.col == 0
  {
    PrintWraps(t, text);
    var t1 := Down(Newline(Print(t, text)), n);
    assert t1.row > INPUT_ROW && t1.col == 0;
    PrintFits(t1, Fill(' ', 75));
  }

  lemma OverlayBlank(c: nat, text: string)
    requires c + |text| <= WIDTH
    ensures Overlay(Fill(' ', WIDTH), c, text) == Line(c, text)
  {
    assert Fill(' ', WIDTH)[..c] == Fill(' ', c);
    assert Fill(' ', WIDTH)[c + |text|..] == Fill(' ', WIDTH - c - |text|);
  }

  /** From the next free row, a message that fits becomes one more line. */
  lemma MessageDrawn(t: Term, rowCount: int, first: nat, lines: seq<string>, text: string)
    requires Drawn(t, rowCount, first, lines) && 0 < rowCount && t.row == SEPARATOR_ROW - rowCount
    requires t.col + |text| <= WIDTH
    ensures var u := Finished(t, text, rowCount);
            AtRest(u, rowCount - 1, first, lines + [Line(t.col, text)], "") && u.col == 0
  {
    FinishedFits(t, text, rowCount);
    OverlayBlank(t.col, text);
    LineAdded(t, Finished(t, text, rowCount), rowCount, first, lines, Line(t.col, text));
  }

  lemma LineAdded(t: Term, u: Term, rowCount: int, first: nat, lines: seq<string>, line: string)
    requires Drawn(t, rowCount, first, lines) && 0 < rowCount && Proper(u) && |u.rows| == |t.rows|
    requires u.rows[SEPARATOR_ROW - rowCount] == line
    requires forall i :: 0 <= i < |t.rows| && i != SEPARATOR_ROW - rowCount && i != INPUT_ROW ==> u.rows[i] == t.rows[i]
    ensures Drawn(u, rowCount - 1, first, lines + [line])
  {
  }

  /** The window is in order again if and only if the message fits. */
  lemma MessageOutcome(t: Term, rowCount: int, first: nat, lines: seq<string>, text: string)
    requires Drawn(t, rowCount, first, lines) && 0 < rowCount && t.row == SEPARATOR_ROW - rowCount
    ensures var u := Finished(t, text, rowCount);
            && Proper(u) && u.col == 0
            && (AtRest(u, rowCount - 1, first, lines + [Line(t.col, text)], "") <==> t.col + |text| <= WIDTH)
            && (t.col + |text| > WIDTH ==> u.row > INPUT_ROW)
  {
    if t.col + |text| <= WIDTH {
      MessageDrawn(t, rowCount, first, lines, text);
    } else {
      FinishedOverflows(t, text, rowCount);
    }
  }

  /** Such a message: 75 characters, the most the editor takes, from id 100000. */
  lemma LongMessageOverflows(t: Term, rowCount: int, first: nat, lines: seq<string>)
    requires Drawn(t, rowCount, first, lines) && 0 < rowCount && t.row == SEPARATOR_ROW - rowCount
    ensures Finished(t, "id100000:" + Fill('x', 75), rowCount).row > INPUT_ROW
  {
    MessageOutcome(t, rowCount, first, lines, "id100000:" + Fill('x', 75));
  }

  /** The way from the input row, or the one below it, to the next free row. */
  lemma ToFreeRow(t: Term, rowCount: int, first: nat, lines: seq<string>, n: int)
    requires Drawn(t, rowCount, first, lines) && 1 <= n
    requires t.row == SEPARATOR_ROW - rowCount + n || (rowCount == SEPARATOR_ROW && t.row < n)
    ensures var u := Up(t, n);
            Drawn(u, rowCount, first, lines) && u.row == SEPARATOR_ROW - rowCount && u.col == t.col
  {
  }

  class Window {
    var term: Term
    var rowCount: int
    ghost var first: nat          // the row of the first message since the last clear
    ghost var lines: seq<string>  // the message rows drawn since then
    ghost var typed: string       // what has been typed since the last message

    ghost predicate Valid()
      reads this
    {
      AtRest(term, rowCount, first, lines, typed)
    }

    /** send_message_Iface: a clear screen with the separator drawn. */
    method SendMessageIface()
      requires Proper(term)
      modifies `term
      ensures Proper(term) && |term.rows| == |old(term).rows| && term.row == INPUT_ROW && term.col == 0
      ensures term.rows[SEPARATOR_ROW] == Fill('=', WIDTH)
      ensures forall i :: 0 <= i < |term.rows| && i != SEPARATOR_ROW ==> term.rows[i] == Fill(' ', WIDTH)
    {
      term := Clear(term);
      var i := 0;
      while i < 15
        invariant 0 <= i <= 15 && Proper(term) && |term.rows| == |old(term).rows|
        invariant term.row == i && term.col == 0
        invariant forall k :: 0 <= k < |term.rows| ==> term.rows[k] == Fill(' ', WIDTH)
      {
        term := Newline(term);
        i := i + 1;
      }
      i := 0;
      while i < 80
        invariant 0 <= i <= 80 && Proper(term) && |term.rows| == |old(term).rows|
        invariant term.row == SEPARATOR_ROW && term.col == i
        invariant forall k :: 0 <= k < i ==> term.rows[SEPARATOR_ROW][k] == '='
        invariant forall k :: 0 <= k < |term.rows| && k != SEPARATOR_ROW ==> term.rows[k] == Fill(' ', WIDTH)
      {
        ghost var before := term.rows[SEPARATOR_ROW];
        PrintFits(term, "=");
        term := Print(term, "=");
        assert forall k :: 0 <= k < i ==> term.rows[SEPARATOR_ROW][..i][k] == before[..i][k];
        assert term.rows[SEPARATOR_ROW][i..i + 1][0] == '=';
        i := i + 1;
      }
      term := Newline(term);
    }

    /** The window is entered; the count of free rows is kept from before. */
    method Enter()
      requires Proper(term) && 0 <= rowCount <= SEPARATOR_ROW
      modifies this
      ensures Valid() && rowCount == old(rowCount) && lines == [] && typed == ""
    {
      SendMessageIface();
      first, lines, typed := SEPARATOR_ROW - rowCount, [], "";
    }

    /** The editor echoes a character of the message being typed. */
    method Type(c: char)
      requires Valid() && |typed| < 75
      modifies `term, `typed
      ensures Valid() && typed == old(typed) + [c]
    {
      PrintFits(term, [c]);
      TypedMore(term, typed, c);
      term := Print(term, [c]);
      typed := typed + [c];
    }

    method Finish(text: string)
      requires Proper(term) && 0 < rowCount
      modifies `term, `rowCount
      ensures rowCount == old(rowCount) - 1 && term == Finished(old(term), text, old(rowCount))
    {
      rowCount := rowCount - 1;
      term := Print(term, text);
      term := Newline(term);
      term := Down(term, rowCount + 1);
      term := Print(term, Fill(' ', 75));
      term := Up(term, 1);
      term := Newline(term);
    }

    /** A message at the next free row; the window is in order afterwards if and
        only if it fits. */
    method Draw(text: string)
      requires Drawn(term, rowCount, first, lines) && 0 < rowCount && term.row == SEPARATOR_ROW - rowCount
      modifies this
      ensures Proper(term) && typed == "" && rowCount == old(rowCount) - 1
      ensures lines == old(lines) + [Line(old(term).col, text)]
      ensures Valid() <==> old(term).col + |text| <= WIDTH
      ensures !Valid() ==> term.row > INPUT_ROW
    {
      ghost var u, more := Finished(term, text, rowCount), lines + [Line(term.col, text)];
      MessageOutcome(term, rowCount, first, lines, text);
      Finish(text);
      assert term == u;
      lines, typed := more, "";
    }

    /** No row is free: the window is drawn afresh. */
    method Restart()
      requires Proper(term)
      modifies this
      ensures Valid() && rowCount == 15 && lines == [] && typed == ""
    {
      rowCount := 15;
      SendMessageIface();
      first, lines, typed := 0, [], "";
    }

    /** Enter has been pressed on a message, and it has been sent. */
    method ShowSent(msg: string)
      requires Valid() && |msg| <= 75
      modifies this
      ensures Valid() && typed == ""
      ensures rowCount == if old(rowCount) > 0 then old(rowCount) - 1 else 14
      ensures lines == (if old(rowCount) > 0 then old(lines) else []) + [Line(0, "mine:" + msg)]
    {
      term := Newline(term);
      if rowCount <= 0 {
        Restart();
      }
      ToFreeRow(term, rowCount, first, lines, rowCount + 2);
      term := Up(term, rowCount + 2);
      Draw("mine:" + msg);
    }

    /** A friend's message arrives; the cursor may stand behind a half-typed line,
        and the message is printed from that column on. The window is in order
        again if and only if it fits. */
    method ShowReceived(name: string, msg: string)
      requires Valid()
      modifies this
      ensures Proper(term) && typed == ""
      ensures rowCount == if old(rowCount) > 0 then old(rowCount) - 1 else 14
      ensures var c := if old(rowCount) > 0 then |old(typed)| else 0;
              && (Valid() <==> c + |name + msg| <= WIDTH)
              && (!Valid() ==> term.row > INPUT_ROW)
              && lines == (if old(rowCount) > 0 then old(lines) else []) + [Line(c, name + msg)]
    {
      if rowCount <= 0 {
        Restart();
      }
      ToFreeRow(term, rowCount, first, lines, rowCount + 1);
      term := Up(term, rowCount + 1);
      Draw(name + msg);
    }
  }

  datatype Event = Typed(c: char) | Sent(msg: string) | Received(name: string, msg: string)

  /** What a window shows: the count of free rows, what is typed on the input
      row, and the message lines since the last clear. */
  datatype Shown = Shown(count: int, typed: string, lines: seq<string>)

  function Text(ev: Event): string {
    match ev
    case Typed(_) => ""
    case Sent(msg) => "mine:" + msg
    case Received(name, msg) => name + msg
  }

  /** The column a message is printed from. */
  function Column(v: Shown, ev: Event): nat {
    if ev.Received? && v.count > 0 then |v.typed| else 0
  }

  /** A message of the editor's length, or a received one that fits its row. */
  predicate OneRow(v: Shown, ev: Event) {
    match ev
    case Typed(_) => |v.typed| < 75
    case Sent(msg) => |msg| <= 75
    case Received(_, _) => Column(v, ev) + |Text(ev)| <= WIDTH
  }

  function Next(v: Shown, ev: Event): Shown {
    if ev.Typed? then v.(typed := v.typed + [ev.c])
    else if v.count > 0 then Shown(v.count - 1, "", v.lines + [Line(Column(v, ev), Text(ev))])
    else Shown(14, "", [Line(Column(v, ev), Text(ev))])
  }

  function After(v: Shown, evs: seq<Event>): Shown {
    if evs == [] then v else Next(After(v, evs[..|evs| - 1]), evs[|evs| - 1])
  }

  /** The lines of all messages, cleared or not. */
  function Log(v: Shown, evs: seq<Event>): seq<string> {
    if evs == [] then []
    else
      var before, ev := evs[..|evs| - 1], evs[|evs| - 1];
      Log(v, before) + if ev.Typed? then [] else [Line(Column(After(v, before), ev), Text(ev))]
  }

  /** How many of the messages are on the screen, of which there is room for
      start before the first clear and for 15 after each. */
  function OnScreen(start: nat, messages: nat): nat {
    if messages <= start then messages else (messages - start - 1) % 15 + 1
  }

  function Room(start: nat, messages: nat): nat {
    if messages <= start then start else 15
  }

  lemma NextOnScreen(start: nat, messages: nat)
    requires start <= 15
    ensures var n := OnScreen(start, messages);
            && n <= messages && n <= Room(start, messages)
            && OnScreen(start, messages + 1) == (if n < Room(start, messages) then n + 1 else 1)
            && (n < Room(start, messages) ==> Room(start, messages + 1) == Room(start, messages))
            && (n == Room(start, messages) ==> Room(start, messages + 1) == 15)
  {
  }

  /** Over any events no message is lost before the next clear: the screen shows
      exactly the last messages, in order, as many as have come since that clear,
      and the other rows are free. */
  lemma {:induction false} ScreenShowsLast(start: nat, evs: seq<Event>)
    requires start <= 15
    ensures var v, log := After(Shown(start, "", []), evs), Log(Shown(start, "", []), evs);
            var n := OnScreen(start, |log|);
            n <= |log| && v.lines == log[|log| - n..] && v.count == Room(start, |log|) - n && 0 <= v.count
  {
    NextOnScreen(start, |Log(Shown(start, "", []), evs)|);
    if evs != [] {
      var v0, before := Shown(start, "", []), evs[..|evs| - 1];
      ScreenShowsLast(start, before);
      LastIsShown(start, Log(v0, before), After(v0, before), evs[|evs| - 1]);
    }
  }

  /** One more event. */
  lemma LastIsShown(start: nat, log: seq<string>, v: Shown, ev: Event)
    requires start <= 15
    requires var n := OnScreen(start, |log|);
             n <= |log| && v.lines == log[|log| - n..] && v.count == Room(start, |log|) - n
    ensures var log2 := log + if ev.Typed? then [] else [Line(Column(v, ev), Text(ev))];
            var n := OnScreen(start, |log2|);
            n <= |log2| && Next(v, ev).lines == log2[|log2| - n..] && Next(v, ev).count == Room(start, |log2|) - n
  {
    var n := OnScreen(start, |log|);
    NextOnScreen(start, |log|);
    if ev.Typed? {
      assert log + [] == log;
    } else {
      var line := Line(Column(v, ev), Text(ev));
      NextOnScreen(start, |log| + 1);
      assert (log + [line])[|log| - n..] == log[|log| - n..] + [line];
      assert (log + [line])[|log|..] == [line];
    }
  }

  /** Any mix of typing, sending and receiving after the window is entered, of
      messages that fit their rows: the window's invariant holds after every
      event, and the window shows what After says. */
  method Chat(w: Window, evs: seq<Event>)
    requires w.Valid() && w.lines == [] && w.typed == ""
    requires forall i :: 0 <= i < |evs| ==> OneRow(After(Shown(w.rowCount, "", []), evs[..i]), evs[i])
    modifies w
    ensures w.Valid() && Shown(w.rowCount, w.typed, w.lines) == After(Shown(old(w.rowCount), "", []), evs)
  {
    ghost var v := Shown(w.rowCount, "", []);
    for i := 0 to |evs|
      invariant w.Valid() && Shown(w.rowCount, w.typed, w.lines) == After(v, evs[..i])
    {
      AfterOneMore(v, evs, i);
      match evs[i] {
        case Typed(c) => w.Type(c);
        case Sent(msg) => w.ShowSent(msg);
        case Received(name, msg) => w.ShowReceived(name, msg);
      }
    }
    assert evs[..|evs|] == evs;
  }

  lemma AfterOneMore(v: Shown, evs: seq<Event>, i: nat)
    requires i < |evs|
    ensures After(v, evs[..i + 1]) == Next(After(v, evs[..i]), evs[i])
  {
    assert evs[..i + 1][..i] == evs[..i];
  }
}
