/** The line editors of project/pwdmgmt.c, with the row of the screen they echo
    to, and the datagram a chat message becomes (project/client.c). */
module LineEditor {
  import opened Wrappers
  import opened Framing

  const ENTER: set<byte> := {13, 10, 9}
  const ERASE: set<byte> := {8, 127}
  const ESCAPE: byte := 27
  const BACKSPACE: byte := 8
  const BLANK: byte := 32
  const STAR: byte := 42

  /** Printed characters; a control character would not show as itself. */
  predicate Printable(c: byte) {
    32 <= c && c != 127
  }

  /** The bounded stack: erase pops, any other key is pushed if there is room. */
  function Press(s: seq<byte>, key: byte, cap: nat): seq<byte> {
    if key in ERASE then (if s == [] then s else s[..|s| - 1])
    else if |s| < cap then s + [key]
    else s
  }

  function Edit(keys: seq<byte>, cap: nat): (s: seq<byte>)
    ensures |s| <= cap
  {
    if keys == [] then [] else Press(Edit(keys[..|keys| - 1], cap), keys[|keys| - 1], cap)
  }

  /** One row of the screen and the cursor's column in it. */
  datatype Row = Row(cells: seq<byte>, cur: nat)

  /** putchar: a backspace moves left, anything else overwrites and moves right. */
  function Put(r: Row, c: byte): Row {
    if c == BACKSPACE then Row(r.cells, if r.cur == 0 then 0 else r.cur - 1)
    else if r.cur < |r.cells| then Row(r.cells[r.cur := c], r.cur + 1)
    else r
  }

  function Shown(key: byte, stars: bool): byte {
    if stars then STAR else key
  }

  /** What one key echoes when s is in the buffer. */
  function EchoKey(r: Row, s: seq<byte>, key: byte, cap: nat, stars: bool): Row {
    if key in ERASE then (if s == [] then r else Put(Put(Put(r, BACKSPACE), BLANK), BACKSPACE))
    else if |s| < cap then Put(r, Shown(key, stars))
    else r
  }

  function Echo(r: Row, keys: seq<byte>, cap: nat, stars: bool): Row {
    if keys == [] then r
    else
      var before := keys[..|keys| - 1];
      EchoKey(Echo(r, before, cap, stars), Edit(before, cap), keys[|keys| - 1], cap, stars)
  }

  /** From column c0 on the row shows s, or as many stars, and then blanks up
      to the capacity; the cursor stands right after it. */
  ghost predicate Shows(r: Row, r0: Row, c0: nat, s: seq<byte>, cap: nat, stars: bool) {
    && |r.cells| == |r0.cells| && r.cur == c0 + |s| && |s| <= cap && c0 + cap <= |r.cells|
    && (forall i :: 0 <= i < |s| ==> r.cells[c0 + i] == Shown(s[i], stars))
    && (forall i :: c0 + |s| <= i < c0 + cap ==> r.cells[i] == BLANK)
    && (forall i :: 0 <= i < |r.cells| && !(c0 <= i < c0 + cap) ==> r.cells[i] == r0.cells[i])
  }

  lemma KeyShows(r: Row, r0: Row, c0: nat, s: seq<byte>, key: byte, cap: nat, stars: bool)
    requires Shows(r, r0, c0, s, cap, stars) && (stars || Printable(key) || key in ERASE)
    ensures Shows(EchoKey(r, s, key, cap, stars), r0, c0, Press(s, key, cap), cap, stars)
  {
    var r1 := EchoKey(r, s, key, cap, stars);
    if key in ERASE && s != [] {
      assert r1 == Row(r.cells[c0 + |s| - 1 := BLANK], c0 + |s| - 1);
    } else if key !in ERASE && |s| < cap {
      assert r1 == Row(r.cells[c0 + |s| := Shown(key, stars)], c0 + |s| + 1);
    }
  }

  /** After every key the echoed row shows the buffer, and nothing outside its
      field has changed. */
  lemma {:induction false} EchoShowsBuffer(r0: Row, keys: seq<byte>, cap: nat, stars: bool)
    requires r0.cur + cap <= |r0.cells|
    requires forall i :: r0.cur <= i < r0.cur + cap ==> r0.cells[i] == BLANK
    requires stars || forall k :: k in keys ==> Printable(k) || k in ERASE
    ensures Shows(Echo(r0, keys, cap, stars), r0, r0.cur, Edit(keys, cap), cap, stars)
  {
    if keys != [] {
      var before, key := keys[..|keys| - 1], keys[|keys| - 1];
      assert key in keys;
      EchoShowsBuffer(r0, before, cap, stars);
      KeyShows(Echo(r0, before, cap, stars), r0, r0.cur, Edit(before, cap), key, cap, stars);
    }
  }

  lemma EditSnoc(keys: seq<byte>, key: byte, cap: nat)
    ensures Edit(keys + [key], cap) == Press(Edit(keys, cap), key, cap)
  {
    assert (keys + [key])[..|keys|] == keys;
  }

  /** Erasing undoes the last key that was taken. */
  lemma EraseUndoes(keys: seq<byte>, key: byte, erase: byte, cap: nat)
    requires key !in ERASE && erase in ERASE && |Edit(keys, cap)| < cap
    ensures Edit((keys + [key]) + [erase], cap) == Edit(keys, cap)
  {
    EditSnoc(keys, key, cap);
    EditSnoc(keys + [key], erase, cap);
  }

  /** Of keys without an erase, the first that fit are taken, in order, and no
      further one. */
  lemma {:induction false} FirstKeysTaken(keys: seq<byte>, cap: nat)
    requires forall k :: k in keys ==> k !in ERASE
    ensures |keys| <= cap ==> Edit(keys, cap) == keys
    ensures cap < |keys| ==> Edit(keys, cap) == keys[..cap]
  {
    if keys != [] {
      var before := keys[..|keys| - 1];
      assert keys[|keys| - 1] in keys;
      FirstKeysTaken(before, cap);
      assert keys == before + [keys[|keys| - 1]];
    }
  }

  /** An erase takes off the last character, if there is one, and a full buffer
      takes no key. */
  lemma EraseOrFull(keys: seq<byte>, key: byte, cap: nat)
    requires key in ERASE || |Edit(keys, cap)| == cap
    ensures var s := Edit(keys, cap);
            Edit(keys + [key], cap) == if key in ERASE && s != [] then s[..|s| - 1] else s
  {
    EditSnoc(keys, key, cap);
  }

  /** How an editor ends: the keys it took before the ending one. */
  ghost predicate EndsAt(keys: seq<byte>, n: nat, escapes: bool) {
    && n < |keys| && (keys[n] in ENTER || (escapes && keys[n] == ESCAPE))
    && forall i :: 0 <= i < n ==> keys[i] !in ENTER && !(escapes && keys[i] == ESCAPE)
  }

  class Screen {
    var row: Row

    constructor (row: Row)
      ensures this.row == row
    {
      this.row := row;
    }

    method Putchar(c: byte)
      modifies this
      ensures row == Put(old(row), c)
    {
      row := Put(row, c);
    }
  }

  /** One key: the body of the editors' loops. */
  method Key(ch: byte, data: array<byte>, i0: nat, len: nat, screen: Screen, stars: bool) returns (i: nat)
    requires i0 < len <= data.Length
    modifies data, screen
    ensures i < len && data[..i] == Press(old(data[..i0]), ch, len - 1)
    ensures data[len..] == old(data[len..])
    ensures screen.row == EchoKey(old(screen.row), old(data[..i0]), ch, len - 1, stars)
  {
    i := i0;
    if ch in ERASE {
      if i > 0 {
        screen.Putchar(BACKSPACE);
        screen.Putchar(BLANK);
        screen.Putchar(BACKSPACE);
        i := i - 1;
      }
    } else if i < len - 1 {
      data[i] := ch;
      i := i + 1;
      screen.Putchar(Shown(ch, stars));
    }
  }

  /** The keystroke loop shared by the three editors: n keys are taken, and data
      holds what they leave in the buffer; nothing at or behind len changes. */
  method Keystrokes(keys: seq<byte>, data: array<byte>, len: nat, screen: Screen, stars: bool, escapes: bool)
    returns (n: nat, i: nat)
    requires 0 < len <= data.Length
    requires exists k: nat :: EndsAt(keys, k, escapes)
    modifies data, screen
    ensures EndsAt(keys, n, escapes)
    ensures i < len && data[..i] == Edit(keys[..n], len - 1)
    ensures data[len..] == old(data[len..])
    ensures screen.row == Echo(old(screen.row), keys[..n], len - 1, stars)
  {
    ghost var end: nat :| EndsAt(keys, end, escapes);
    n, i := 0, 0;
    while keys[n] !in ENTER && !(escapes && keys[n] == ESCAPE)
      invariant n <= end && i < len
      invariant forall k :: 0 <= k < n ==> keys[k] !in ENTER && !(escapes && keys[k] == ESCAPE)
      invariant data[..i] == Edit(keys[..n], len - 1) && data[len..] == old(data[len..])
      invariant screen.row == Echo(old(screen.row), keys[..n], len - 1, stars)
      decreases end - n
    {
      assert keys[..n + 1][..n] == keys[..n];
      i := Key(keys[n], data, i, len, screen, stars);
      n := n + 1;
    }
  }

  /** password_input: the buffer becomes a C string, the screen shows stars. */
  method PasswordInput(keys: seq<byte>, password: array<byte>, len: nat, screen: Screen) returns (n: nat)
    requires 0 < len <= password.Length && exists k: nat :: EndsAt(keys, k, false)
    modifies password, screen
    ensures EndsAt(keys, n, false)
    ensures var s := Edit(keys[..n], len - 1);
            password[..|s|] == s && password[|s|] == 0 && password[len..] == old(password[len..])
    ensures screen.row == Echo(old(screen.row), keys[..n], len - 1, true)
  {
    var i;
    n, i := Keystrokes(keys, password, len, screen, true, false);
    password[i] := 0;
  }

  /** data_input: the same, echoing the keys themselves. */
  method DataInput(keys: seq<byte>, data: array<byte>, len: nat, screen: Screen) returns (n: nat)
    requires 0 < len <= data.Length && exists k: nat :: EndsAt(keys, k, false)
    modifies data, screen
    ensures EndsAt(keys, n, false)
    ensures var s := Edit(keys[..n], len - 1);
            data[..|s|] == s && data[|s|] == 0 && data[len..] == old(data[len..])
    ensures screen.row == Echo(old(screen.row), keys[..n], len - 1, false)
  {
    var i;
    n, i := Keystrokes(keys, data, len, screen, false, false);
    data[i] := 0;
  }

  /** data_input_msg: an escape gives up with -1 and leaves the string unended. */
  method DataInputMsg(keys: seq<byte>, data: array<byte>, len: nat, screen: Screen) returns (ret: int, n: nat)
    requires 0 < len <= data.Length && exists k: nat :: EndsAt(keys, k, true)
    modifies data, screen
    ensures EndsAt(keys, n, true)
    ensures ret == if keys[n] == ESCAPE then -1 else 0
    ensures var s := Edit(keys[..n], len - 1);
            data[..|s|] == s && (ret == 0 ==> data[|s|] == 0) && data[len..] == old(data[len..])
    ensures screen.row == Echo(old(screen.row), keys[..n], len - 1, false)
  {
    var i;
    n, i := Keystrokes(keys, data, len, screen, false, true);
    if keys[n] == ESCAPE {
      return -1, n;
    }
    data[i] := 0;
    ret := 0;
  }

  const MSG_LEN: nat := 76
  const UDP_BUFFER: nat := 256

  /** UDP_HEADER and the message as a C string: what sendto is given. */
  function Datagram(id: int32, buffer: seq<byte>): seq<byte> {
    var text := CString(buffer);
    Le32(id) + Le32(|text| + 1) + (text + [0])
  }

  lemma {:induction false} CStringShorter(s: seq<byte>)
    ensures |CString(s)| <= |s| && 0 !in CString(s)
    ensures CString(s) == s <==> 0 !in s
  {
    if s != [] && s[0] != 0 {
      CStringShorter(s[1..]);
      assert s == [s[0]] + s[1..];
    }
  }

  /** Every message the editor can accept fits the receiver's buffer, and the
      receiver reads the sender's id and the message; it is all that was typed
      if and only if no NUL was. */
  lemma MessageRoundTrip(id: int32, keys: seq<byte>)
    ensures var s := Edit(keys, MSG_LEN - 1);
            var d := Datagram(id, s);
            && |d| <= 8 + MSG_LEN <= UDP_BUFFER
            && ReadLe32(d[..4]) == id && ReadLe32(d[4..8]) == |d| - 8
            && (CString(d[8..]) == s <==> 0 !in s)
  {
    var s := Edit(keys, MSG_LEN - 1);
    var d := Datagram(id, s);
    CStringShorter(s);
    Le32RoundTrip(id);
    Le32RoundTrip(|CString(s)| + 1);
    assert d[..4] == Le32(id) && d[4..8] == Le32(|CString(s)| + 1) && d[8..] == CString(s) + [0] + [];
    CStringOf(CString(s), []);
  }
  /** A message with a typed NUL: of `h`, NUL, `i` only the `h` arrives. */
  lemma NulCutsMessage(id: int32)
    ensures var keys: seq<byte> := [104, 0, 105];
            Edit(keys, MSG_LEN - 1) == keys && CString(Datagram(id, keys)[8..]) == [104]
  {
    var keys: seq<byte> := [104, 0, 105];
    EditSnoc([], 104, MSG_LEN - 1);
    EditSnoc([104], 0, MSG_LEN - 1);
    EditSnoc([104, 0], 105, MSG_LEN - 1);
    assert [] + [104 as byte] == [104] && [104 as byte] + [0] == [104, 0] && [104 as byte, 0] + [105] == keys;
    assert keys[1..][0] == 0;
    assert CString(keys) == [104];
    assert Datagram(id, keys)[8..] == [104] + [0] + [];
    CStringOf([104], []);
  }
}
