/** conf_file_analysis of project/init.c on a file that fits one read. */
module Config {
  import opened Wrappers

  const NUL: char := '\0'

  /** What a scan ends with: return value 0 and the settings, return value -1,
      or a read past the end of buf. */
  datatype Outcome = Parsed(ip: string, port: Option<int>) | Failed | Overrun

  predicate IsDigit(c: char) {
    '0' <= c <= '9'
  }

  predicate IsSpace(c: char) {
    c == ' ' || '\t' <= c <= '\r'
  }

  function DigitValue(s: string, acc: int): int
    decreases |s|
  {
    if s == "" || !IsDigit(s[0]) then acc
    else DigitValue(s[1..], 10 * acc + (s[0] as int - '0' as int))
  }

  function Atoi(s: string): int
    decreases |s|
  {
    if s == "" then 0
    else if IsSpace(s[0]) then Atoi(s[1..])
    else if s[0] == '-' then 0 - DigitValue(s[1..], 0)
    else if s[0] == '+' then DigitValue(s[1..], 0)
    else DigitValue(s, 0)
  }

  /** The value stored through pport: cast to unsigned short. */
  function PortValue(s: string): int {
    Atoi(s) % 65536
  }

  /** The chain of buf[i++] == ... tests: whether all hold, and i afterwards;
      the first that fails has still advanced i. None if it runs past b. */
  function MatchKey(b: string, i: nat, key: string): Option<(bool, nat)>
    decreases |key|
  {
    if key == "" then Some((true, i))
    else if i >= |b| then None
    else if b[i] == key[0] then MatchKey(b, i + 1, key[1..])
    else Some((false, i + 1))
  }

  /** The characters from i up to one of `stops`, at most `limit` of them. */
  function TakeText(b: string, i: nat, stops: set<char>, limit: nat): (r: Option<string>)
    ensures r.Some? ==> |r.value| <= limit && i + |r.value| < |b|
    decreases limit
  {
    if i >= |b| then None
    else if b[i] in stops || limit == 0 then Some("")
    else
      var rest := TakeText(b, i + 1, stops, limit - 1);
      if rest.None? then None else Some([b[i]] + rest.value)
  }

  /** The first newline at or after i. */
  function FindNewline(b: string, i: nat): (r: Option<nat>)
    ensures r.Some? ==> i <= r.value < |b|
    decreases |b| - i
  {
    if i >= |b| then None else if b[i] == '\n' then Some(i) else FindNewline(b, i + 1)
  }

  const IP_KEY := "p=\""
  const PORT_KEY := "ort="
  const QUOTE := {'\"'}
  const BLANKS := {'\n', ' '}

  lemma {:induction false} MatchAdvances(b: string, i: nat, key: string)
    ensures MatchKey(b, i, key).Some? ==> i <= MatchKey(b, i, key).value.1
    decreases |key|
  {
    if key != "" && i < |b| && b[i] == key[0] { MatchAdvances(b, i + 1, key[1..]); }
  }

  /** One pass over the loop body at i < n: where it continues, with what
      settings; or how it ends. */
  datatype Next = At(i: nat, ip: string, port: Option<int>) | Stop(how: Outcome)

  function ScanIp(b: string, i: nat, ip: string, port: Option<int>): (r: Next)
    ensures r.At? ==> i < r.i
  {
    MatchAdvances(b, i + 1, IP_KEY);
    match MatchKey(b, i + 1, IP_KEY)
    case None => Stop(Overrun)
    case Some((false, k)) => At(k + 1, ip, port)
    case Some((true, k)) =>
      match TakeText(b, k, QUOTE, 15)
      case None => Stop(Overrun)
      case Some(text) => At(k + |text| + 1, text, port)
  }

  function ScanPort(b: string, i: nat, ip: string): (r: Next)
    ensures r.At? ==> i < r.i
  {
    MatchAdvances(b, i + 1, PORT_KEY);
    match MatchKey(b, i + 1, PORT_KEY)
    case None => Stop(Overrun)
    case Some((false, k)) => At(k + 1, ip, Some(PortValue("")))
    case Some((true, k)) =>
      match TakeText(b, k, BLANKS, 5)
      case None => Stop(Overrun)
      case Some(text) => At(k + |text| + 1, ip, Some(PortValue(text)))
  }

  function ScanOne(b: string, i: nat, ip: string, port: Option<int>): (r: Next)
    requires i < |b|
    ensures r.At? ==> i < r.i
  {
    if b[i] == '#' then
      var j := FindNewline(b, i + 1);
      if j.None? then Stop(Overrun) else At(j.value + 1, ip, port)
    else if b[i] == '\n' || b[i] == ' ' then At(i + 1, ip, port)
    else if b[i] == 'i' then ScanIp(b, i, ip, port)
    else if b[i] == 'p' then ScanPort(b, i, ip)
    else Stop(Failed)
  }

  /** The scanner from index i, with n bytes of b read from the file. */
  function Scan(b: string, n: nat, i: nat, ip: string, port: Option<int>): Outcome
    requires n <= |b|
    decreases n - i
  {
    if i >= n then Parsed(ip, port)
    else
      match ScanOne(b, i, ip, port)
      case Stop(how) => how
      case At(j, ip', port') => Scan(b, n, j, ip', port')
  }

  /** A line of a configuration file, or a blank between. */
  datatype Item =
    | Comment(text: string)
    | Blank(newline: bool)
    | Ip(text: string)
    | Port(n: nat, newline: bool)

  /** Comments end at their newline; an ip has at most 15 characters and no
      quote; a port is 16 bits. */
  predicate Proper(item: Item) {
    match item
    case Comment(text) => '\n' !in text
    case Blank(_) => true
    case Ip(text) => |text| <= 15 && '\"' !in text
    case Port(n, _) => 0 <= n < 65536
  }

  function Digits(n: nat): string {
    var d := ['0' + (n % 10) as char];
    if n < 10 then d else Digits(n / 10) + d
  }

  function BlankOf(newline: bool): string {
    if newline then "\n" else " "
  }

  function Print(item: Item): string {
    match item
    case Comment(text) => "#" + text + "\n"
    case Blank(newline) => BlankOf(newline)
    case Ip(text) => "ip=\"" + text + "\""
    case Port(n, newline) => "port=" + Digits(n) + BlankOf(newline)
  }

  function PrintAll(items: seq<Item>): string {
    if items == [] then "" else Print(items[0]) + PrintAll(items[1..])
  }

  /** The settings in force after the items. */
  function Settings(items: seq<Item>, ip: string, port: Option<int>): Outcome {
    if items == [] then Parsed(ip, port)
    else
      match items[0]
      case Ip(text) => Settings(items[1..], text, port)
      case Port(n, _) => Settings(items[1..], ip, Some(n))
      case _ => Settings(items[1..], ip, port)
  }

  /** The text p stands in b from index i on. */
  ghost predicate Has(b: string, i: nat, p: string) {
    i + |p| <= |b| && forall k :: 0 <= k < |p| ==> b[i + k] == p[k]
  }

  lemma HasSplit(b: string, i: nat, p: string, q: string)
    requires Has(b, i, p + q)
    ensures Has(b, i, p) && Has(b, i + |p|, q)
  {
    forall k | 0 <= k < |p| ensures b[i + k] == p[k] {
      assert (p + q)[k] == p[k];
    }
    forall k | 0 <= k < |q| ensures b[i + |p| + k] == q[k] {
      assert (p + q)[|p| + k] == q[k];
    }
  }

  lemma HasTail(b: string, i: nat, p: string)
    requires Has(b, i, p) && p != ""
    ensures i < |b| && b[i] == p[0] && p[0] in p && Has(b, i + 1, p[1..])
  {
    assert p == [p[0]] + p[1..];
    HasSplit(b, i, [p[0]], p[1..]);
    assert [p[0]][0] == b[i + 0];
  }

  lemma {:induction false} FindNewlineAt(b: string, i: nat, text: string)
    requires Has(b, i, text) && '\n' !in text && Has(b, i + |text|, "\n")
    ensures FindNewline(b, i) == Some(i + |text|)
    decreases |text|
  {
    if text != "" {
      HasTail(b, i, text);
      FindNewlineAt(b, i + 1, text[1..]);
    } else {
      HasTail(b, i, "\n");
    }
  }

  lemma {:induction false} MatchKeyAt(b: string, i: nat, key: string)
    requires Has(b, i, key)
    ensures MatchKey(b, i, key) == Some((true, i + |key|))
    decreases |key|
  {
    if key != "" {
      HasTail(b, i, key);
      MatchKeyAt(b, i + 1, key[1..]);
    }
  }

  lemma {:induction false} TakeTextAt(b: string, i: nat, text: string, stop: string, stops: set<char>, limit: nat)
    requires Has(b, i, text) && Has(b, i + |text|, stop) && stop != "" && stop[0] in stops
    requires |text| <= limit && forall c :: c in text ==> c !in stops
    ensures TakeText(b, i, stops, limit) == Some(text)
    decreases |text|
  {
    if text != "" {
      HasTail(b, i, text);
      TakeTextAt(b, i + 1, text[1..], stop, stops, limit - 1);
      assert text == [b[i]] + text[1..];
    } else {
      HasTail(b, i, stop);
    }
  }

  lemma {:induction false} DigitsAreDigits(n: nat)
    ensures forall c :: c in Digits(n) ==> IsDigit(c)
    ensures Digits(n) != ""
    decreases n
  {
    if n >= 10 { DigitsAreDigits(n / 10); }
  }

  function Pow10(k: nat): nat {
    if k == 0 then 1 else 10 * Pow10(k - 1)
  }

  lemma {:induction false} DigitsAreShort(n: nat, k: nat)
    requires 0 < k && n < Pow10(k)
    ensures |Digits(n)| <= k
    decreases k
  {
    if n >= 10 { DigitsAreShort(n / 10, k - 1); }
  }

  lemma {:induction false} OneMoreDigit(s: string, c: char, acc: int)
    requires (forall x :: x in s ==> IsDigit(x)) && IsDigit(c)
    ensures DigitValue(s + [c], acc) == 10 * DigitValue(s, acc) + (c as int - '0' as int)
    decreases |s|
  {
    if s == "" {
      assert (s + [c])[1..] == "";
    } else {
      assert (s + [c])[1..] == s[1..] + [c];
      OneMoreDigit(s[1..], c, 10 * acc + (s[0] as int - '0' as int));
    }
  }

  lemma {:induction false} DigitsValue(n: nat)
    ensures DigitValue(Digits(n), 0) == n
    decreases n
  {
    var c := '0' + (n % 10) as char;
    if n < 10 {
      assert [c][1..] == "";
    } else {
      DigitsValue(n / 10);
      DigitsAreDigits(n / 10);
      OneMoreDigit(Digits(n / 10), c, 0);
    }
  }

  /** A printed 16-bit port fits the five characters taken and reads back. */
  lemma PortReadsBack(n: int)
    requires 0 <= n < 65536
    ensures 0 < |Digits(n)| <= 5 && PortValue(Digits(n)) == n
    ensures forall c :: c in Digits(n) ==> c !in BLANKS
  {
    assert Pow10(5) == 100000 by { assert Pow10(2) == 100; assert Pow10(4) == 10000; }
    DigitsAreShort(n, 5);
    DigitsAreDigits(n);
    DigitsValue(n);
    assert Digits(n)[0] in Digits(n);
  }

  lemma IpScans(b: string, i: nat, text: string, ip: string, port: Option<int>)
    requires Has(b, i, Print(Ip(text))) && |text| <= 15 && '\"' !in text
    ensures ScanOne(b, i, ip, port) == At(i + |text| + 5, text, port)
  {
    assert Print(Ip(text)) == "i" + (IP_KEY + (text + "\""));
    HasSplit(b, i, "i", IP_KEY + (text + "\""));
    HasSplit(b, i + 1, IP_KEY, text + "\"");
    HasSplit(b, i + 4, text, "\"");
    HasTail(b, i, "i");
    MatchKeyAt(b, i + 1, IP_KEY);
    TakeTextAt(b, i + 4, text, "\"", QUOTE, 15);
  }

  lemma PortTextScans(b: string, i: nat, d: string, e: string, ip: string, port: Option<int>)
    requires Has(b, i, "p" + (PORT_KEY + (d + e))) && |d| <= 5 && (e == " " || e == "\n")
    requires forall c :: c in d ==> c !in BLANKS
    ensures ScanOne(b, i, ip, port) == At(i + |d| + 6, ip, Some(PortValue(d)))
  {
    HasSplit(b, i, "p", PORT_KEY + (d + e));
    HasSplit(b, i + 1, PORT_KEY, d + e);
    HasSplit(b, i + 5, d, e);
    HasTail(b, i, "p");
    MatchKeyAt(b, i + 1, PORT_KEY);
    TakeTextAt(b, i + 5, d, e, BLANKS, 5);
  }

  lemma PortScans(b: string, i: nat, n: nat, newline: bool, ip: string, port: Option<int>)
    requires n < 65536 && Has(b, i, Print(Port(n, newline)))
    ensures ScanOne(b, i, ip, port) == At(i + |Digits(n)| + 6, ip, Some(n))
  {
    PortReadsBack(n);
    var d, e := Digits(n), BlankOf(newline);
    assert "port=" + d + e == "p" + (PORT_KEY + (d + e));
    PortTextScans(b, i, d, e, ip, port);
  }

  lemma CommentScans(b: string, i: nat, text: string, ip: string, port: Option<int>)
    requires Has(b, i, Print(Comment(text))) && '\n' !in text
    ensures ScanOne(b, i, ip, port) == At(i + |text| + 2, ip, port)
  {
    assert Print(Comment(text)) == "#" + (text + "\n");
    HasSplit(b, i, "#", text + "\n");
    HasSplit(b, i + 1, text, "\n");
    HasTail(b, i, "#");
    FindNewlineAt(b, i + 1, text);
  }

  /** Each printed item is scanned to exactly its end. */
  lemma ItemScans(b: string, i: nat, item: Item, ip: string, port: Option<int>)
    requires Proper(item) && Has(b, i, Print(item))
    ensures Print(item) != "" && i < |b|
    ensures ScanOne(b, i, ip, port) == At(i + |Print(item)|, if item.Ip? then item.text else ip,
                                          if item.Port? then Some(item.n) else port)
  {
    match item
    case Comment(text) => CommentScans(b, i, text, ip, port);
    case Blank(newline) => HasTail(b, i, BlankOf(newline));
    case Ip(text) => IpScans(b, i, text, ip, port);
    case Port(n, newline) => PortScans(b, i, n, newline, ip, port);
  }

  /** One printed item and the rest of the layout. */
  lemma LayoutStep(b: string, n: nat, i: nat, item: Item, rest: string, ip: string, port: Option<int>)
    requires i + |Print(item) + rest| <= n <= |b| && Has(b, i, Print(item) + rest) && Proper(item)
    ensures Has(b, i + |Print(item)|, rest)
    ensures Scan(b, n, i, ip, port)
         == Scan(b, n, i + |Print(item)|, if item.Ip? then item.text else ip, if item.Port? then Some(item.n) else port)
  {
    HasSplit(b, i, Print(item), rest);
    ItemScans(b, i, item, ip, port);
  }

  lemma {:induction false} LayoutScans(b: string, n: nat, i: nat, items: seq<Item>, ip: string, port: Option<int>)
    requires n <= |b| && n == i + |PrintAll(items)| && Has(b, i, PrintAll(items))
    requires forall item :: item in items ==> Proper(item)
    ensures Scan(b, n, i, ip, port) == Settings(items, ip, port)
    decreases |items|
  {
    if items != [] {
      var item := items[0];
      assert item in items;
      LayoutStep(b, n, i, item, PrintAll(items[1..]), ip, port);
      LayoutScans(b, n, i + |Print(item)|, items[1..], if item.Ip? then item.text else ip,
                  if item.Port? then Some(item.n) else port);
    }
  }

  /** What ends a scan at k: a character that begins no item, or a comment
      without its newline. */
  ghost predicate Stops(b: string, k: nat, how: Outcome)
    requires k < |b|
  {
    match how
    case Failed => b[k] !in {'#', '\n', ' ', 'i', 'p'}
    case Overrun => b[k] == '#' && FindNewline(b, k + 1) == None
    case _ => false
  }

  /** Printed items, and then, at k, something that ends the scan. */
  lemma {:induction false} LayoutStops(b: string, n: nat, i: nat, items: seq<Item>, ip: string, port: Option<int>,
                                       k: nat, how: Outcome)
    requires i + |PrintAll(items)| == k < n <= |b| && Has(b, i, PrintAll(items)) && Stops(b, k, how)
    requires forall item :: item in items ==> Proper(item)
    ensures Scan(b, n, i, ip, port) == how
    decreases |items|
  {
    if items == [] {
      StopScans(b, n, k, ip, port, how);
    } else {
      var item, rest := items[0], items[1..];
      assert item in items && forall x :: x in rest ==> x in items;
      LayoutStep(b, n, i, item, PrintAll(rest), ip, port);
      LayoutStops(b, n, i + |Print(item)|, rest, if item.Ip? then item.text else ip,
                  if item.Port? then Some(item.n) else port, k, how);
    }
  }

  lemma StopScans(b: string, n: nat, k: nat, ip: string, port: Option<int>, how: Outcome)
    requires k < n <= |b| && Stops(b, k, how)
    ensures Scan(b, n, k, ip, port) == how
  {
  }

  lemma PrintedPrefix(b: string, k: nat, items: seq<Item>)
    requires k <= |b| && b[..k] == PrintAll(items)
    ensures Has(b, 0, PrintAll(items))
  {
    forall j | 0 <= j < k ensures b[0 + j] == PrintAll(items)[j] {
      assert b[..k][j] == b[j];
    }
  }

  /** A character that begins no item, after any printed items, fails the scan. */
  lemma StrayFails(b: string, n: nat, k: nat, items: seq<Item>)
    requires k < n <= |b| && b[..k] == PrintAll(items) && forall item :: item in items ==> Proper(item)
    requires b[k] !in {'#', '\n', ' ', 'i', 'p'}
    ensures Scan(b, n, 0, "", None) == Failed
  {
    PrintedPrefix(b, k, items);
    LayoutStops(b, n, 0, items, "", None, k, Failed);
  }

  lemma {:induction false} NoNewline(b: string, i: nat)
    requires forall j :: i <= j < |b| ==> b[j] != '\n'
    ensures FindNewline(b, i) == None
    decreases |b| - i
  {
    if i < |b| { NoNewline(b, i + 1); }
  }

  /** So a comment without its newline makes it read past buf. */
  lemma OpenCommentOverruns(b: string, n: nat, k: nat, items: seq<Item>)
    requires k < n <= |b| && b[..k] == PrintAll(items) && forall item :: item in items ==> Proper(item)
    requires b[k] == '#' && forall j :: k < j < |b| ==> b[j] != '\n'
    ensures Scan(b, n, 0, "", None) == Overrun
  {
    PrintedPrefix(b, k, items);
    NoNewline(b, k + 1);
    LayoutStops(b, n, 0, items, "", None, k, Overrun);
  }

  /** A misspelt port is not skipped: the port becomes 0. */
  lemma MisspeltPortIsZero(b: string, i: nat, ip: string, port: Option<int>)
    requires i + 1 < |b| && b[i] == 'p' && b[i + 1] != 'o'
    ensures ScanOne(b, i, ip, port) == At(i + 3, ip, Some(0))
  {
    assert MatchKey(b, i + 1, PORT_KEY) == Some((false, i + 2));
  }

  lemma {:induction false} TakeTextFull(b: string, i: nat, text: string, stops: set<char>, limit: nat)
    requires Has(b, i, text) && limit < |text| && forall c :: c in text ==> c !in stops
    ensures TakeText(b, i, stops, limit) == Some(text[..limit])
    decreases limit
  {
    HasTail(b, i, text);
    if limit > 0 {
      TakeTextFull(b, i + 1, text[1..], stops, limit - 1);
      assert text[..limit] == [b[i]] + text[1..][..limit - 1];
    }
  }

  /** An ip of more than 15 characters is cut, and the scan goes on behind the
      sixteenth. */
  lemma LongIpIsCut(b: string, i: nat, text: string, ip: string, port: Option<int>)
    requires Has(b, i, "i" + (IP_KEY + text)) && 15 < |text| && '\"' !in text
    ensures ScanOne(b, i, ip, port) == At(i + 20, text[..15], port)
  {
    HasSplit(b, i, "i", IP_KEY + text);
    HasSplit(b, i + 1, IP_KEY, text);
    HasTail(b, i, "i");
    MatchKeyAt(b, i + 1, IP_KEY);
    TakeTextFull(b, i + 4, text, QUOTE, 15);
  }

  /** Whatever printed items fill the n bytes read, and whatever buf holds
      behind them, the scan succeeds with the last ip and the last port among
      them, and never reads past buf. */
  lemma LayoutRoundTrip(b: string, n: nat, items: seq<Item>)
    requires n <= |b| && b[..n] == PrintAll(items)
    requires forall item :: item in items ==> Proper(item)
    ensures Scan(b, n, 0, "", None) == Settings(items, "", None)
    ensures Scan(b, n, 0, "", None).Parsed?
  {
    PrintedPrefix(b, n, items);
    LayoutScans(b, n, 0, items, "", None);
    SettingsParse(items, "", None);
  }

  /** Comments and blanks. */
  ghost predicate Quiet(items: seq<Item>) {
    forall x :: x in items ==> x.Comment? || x.Blank?
  }

  lemma {:induction false} SettingsSkip(quiet: seq<Item>, items: seq<Item>, ip: string, port: Option<int>)
    requires Quiet(quiet)
    ensures Settings(quiet + items, ip, port) == Settings(items, ip, port)
    decreases |quiet|
  {
    if quiet == [] {
      assert quiet + items == items;
    } else {
      assert quiet[0] in quiet && (quiet + items)[1..] == quiet[1..] + items;
      SettingsSkip(quiet[1..], items, ip, port);
    }
  }

  /** Round trip: a file with one ip line and one port line, and any comments
      and blanks before, between and after, gives exactly that ip and port. */
  lemma ConfigRoundTrip(b: string, n: nat, before: seq<Item>, ip: string, between: seq<Item>,
                        port: nat, newline: bool, after: seq<Item>)
    requires |ip| <= 15 && '\"' !in ip && port < 65536
    requires Quiet(before) && Quiet(between) && Quiet(after)
    requires forall item :: item in before + between + after ==> Proper(item)
    requires n <= |b|
    requires b[..n] == PrintAll(before + ([Ip(ip)] + (between + ([Port(port, newline)] + after))))
    ensures Scan(b, n, 0, "", None) == Parsed(ip, Some(port))
  {
    var tail := [Port(port, newline)] + after;
    var rest := [Ip(ip)] + (between + tail);
    var items := before + rest;
    forall item | item in items ensures Proper(item) {
      assert item in before + between + after || item == Ip(ip) || item == Port(port, newline);
    }
    LayoutRoundTrip(b, n, items);
    SettingsSkip(before, rest, "", None);
    assert rest[1..] == between + tail && tail[1..] == after;
    SettingsSkip(between, tail, ip, None);
    SettingsSkip(after, [], ip, Some(port));
    assert after + [] == after;
  }

  lemma {:induction false} SettingsParse(items: seq<Item>, ip: string, port: Option<int>)
    ensures Settings(items, ip, port).Parsed?
    decreases |items|
  {
    if items != [] {
      SettingsParse(items[1..], if items[0].Ip? then items[0].text else ip,
                    if items[0].Port? then Some(items[0].n) else port);
    }
  }

  /** The scanner's return: 0, -1, or a read past the end of buf. */
  datatype Return = Zero | MinusOne | PastEnd

  /** The chain of tests against key; None past the end of buf. */
  method TestKey(buf: array<char>, i: nat, key: string) returns (r: Option<(bool, nat)>)
    ensures r == MatchKey(buf[..], i, key)
  {
    var k := 0;
    while k < |key|
      invariant k <= |key| && MatchKey(buf[..], i + k, key[k..]) == MatchKey(buf[..], i, key)
    {
      if i + k >= buf.Length {
        return None;
      }
      if buf[i + k] != key[k] {
        return Some((false, i + k + 1));
      }
      k := k + 1;
    }
    return Some((true, i + k));
  }

  /** The copying loop: characters from buf[i] on into dst, up to a stop or the limit. */
  method CopyText(buf: array<char>, i: nat, stops: set<char>, limit: nat, dst: array<char>)
    returns (ok: bool, j: nat)
    requires limit < dst.Length && buf != dst
    modifies dst
    ensures j <= limit
    ensures match TakeText(buf[..], i, stops, limit)
            case None => !ok
            case Some(text) => ok && j == |text| && dst[..j] == text
  {
    j, ok := 0, true;
    while true
      invariant j <= limit && ok
      invariant match TakeText(buf[..], i, stops, limit)
                case None => TakeText(buf[..], i + j, stops, limit - j) == None
                case Some(text) => j <= |text| && dst[..j] == text[..j] &&
                                   TakeText(buf[..], i + j, stops, limit - j) == Some(text[j..])
      decreases limit - j
    {
      if i + j >= buf.Length {
        ok := false;
        return;
      }
      if buf[i + j] in stops || j >= limit {
        return;
      }
      ghost var whole, tail := TakeText(buf[..], i, stops, limit), TakeText(buf[..], i + j + 1, stops, limit - j - 1);
      if whole.Some? {
        assert whole.value[j..] == [buf[i + j]] + tail.value;
        assert whole.value[j + 1..] == whole.value[j..][1..] == tail.value;
      }
      dst[j] := buf[i + j];
      j := j + 1;
    }
  }

  /** The end of a comment that began before i; None past the end of buf. */
  method SkipComment(buf: array<char>, i: nat) returns (r: Option<nat>)
    ensures r == FindNewline(buf[..], i)
  {
    var k := i;
    while k < buf.Length && buf[k] != '\n'
      invariant FindNewline(buf[..], k) == FindNewline(buf[..], i)
      decreases buf.Length - k
    {
      k := k + 1;
    }
    r := if k < buf.Length then Some(k) else None;
  }

  /** The branch for an ip; false if it reads past the end of buf. */
  method IpItem(buf: array<char>, i: nat, ip: array<char>, ghost text: string, ghost port: Option<int>)
    returns (ok: bool, j: nat, ghost text': string)
    requires ip.Length == 16 && buf != ip && |text| < 16 && ip[..|text| + 1] == text + [NUL]
    modifies ip
    ensures match ScanIp(buf[..], i, text, port)
            case Stop(_) => !ok
            case At(k, t, p) => ok && j == k && text' == t && p == port &&
                                |text'| < 16 && ip[..|text'| + 1] == text' + [NUL]
  {
    text' := text;
    j := i;
    var m := TestKey(buf, i + 1, IP_KEY);
    if m.None? {
      ok := false;
      return;
    }
    ok, j := true, m.value.1;
    if m.value.0 {
      var n;
      ok, n := CopyText(buf, j, QUOTE, 15, ip);
      if !ok {
        return;
      }
      ip[n] := NUL;
      text' := ip[..n];
      j := j + n;
    }
    j := j + 1;
  }

  /** The branch for a port; false if it reads past the end of buf. */
  method PortItem(buf: array<char>, i: nat, ghost ip: string) returns (ok: bool, j: nat, value: int)
    ensures match ScanPort(buf[..], i, ip)
            case Stop(_) => !ok
            case At(k, t, p) => ok && j == k && t == ip && p == Some(value)
  {
    j, value := i, 0;
    var port := new char[6];
    var m := TestKey(buf, i + 1, PORT_KEY);
    if m.None? {
      ok := false;
      return;
    }
    ok, j := true, m.value.1;
    var n := 0;
    if m.value.0 {
      ok, n := CopyText(buf, j, BLANKS, 5, port);
      if !ok {
        return;
      }
      j := j + n;
    }
    port[n] := NUL;
    j := j + 1;
    value := PortValue(port[..n]);
  }

  /** conf_file_analysis on the one chunk read into buf. The caller's ip starts
      as an empty C string; on success it holds the scanned one. */
  method ConfFileAnalysis(buf: array<char>, lenth: nat, ip: array<char>) returns (ret: Return, pport: Option<int>)
    requires lenth <= buf.Length && ip.Length == 16 && buf != ip && ip[0] == NUL
    modifies ip
    ensures match Scan(buf[..], lenth, 0, "", None)
            case Parsed(text, p) => ret == Zero && pport == p && |text| < 16 && ip[..|text| + 1] == text + [NUL]
            case Failed => ret == MinusOne
            case Overrun => ret == PastEnd
  {
    var i := 0;
    ghost var text := "";
    pport := None;
    while i < lenth
      invariant |text| < 16 && ip[..|text| + 1] == text + [NUL]
      invariant Scan(buf[..], lenth, i, text, pport) == Scan(buf[..], lenth, 0, "", None)
      decreases lenth - i
    {
      ghost var next := ScanOne(buf[..], i, text, pport);
      if buf[i] == '#' {
        var j := SkipComment(buf, i + 1);
        if j.None? {
          return PastEnd, pport;
        }
        i := j.value + 1;
      } else if buf[i] == '\n' || buf[i] == ' ' {
        i := i + 1;
      } else if buf[i] == 'i' {
        var ok, j;
        ghost var text';
        ok, j, text' := IpItem(buf, i, ip, text, pport);
        if !ok {
          return PastEnd, pport;
        }
        i, text := j, text';
      } else if buf[i] == 'p' {
        var ok, j, value := PortItem(buf, i, text);
        if !ok {
          return PastEnd, pport;
        }
        i, pport := j, Some(value);
      } else {
        return MinusOne, pport;
      }
      assert next == At(i, text, pport);
    }
    ret := Zero;
  }
}
