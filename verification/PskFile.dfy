/** The pre-shared key file of gck-rpc-tls-psk.c: line reader, hex decoder and lookup by identity. */
module PskFile {
  import opened Bytes

  const NEWLINE: Byte := 0x0a
  const RETURN: Byte := 0x0d
  const COLON: Byte := 0x3a
  /** sizeof(line), and the room _fgets is given. */
  const LINE_SIZE := 1024
  const LINE_ROOM := 1023

  // ----- Hex keys ---------------------------------------------------------------------------

  /** The value of a hex digit, or -1. */
  function ToHex(c: Byte): (v: int)
    ensures -1 <= v < 16
  {
    if 0x30 <= c <= 0x39 then c - 0x30
    else if 0x61 <= c <= 0x66 then c - 0x61 + 10
    else if 0x41 <= c <= 0x46 then c - 0x41 + 10
    else -1
  }

  /** The bytes a hex string stands for, if it has even length and only hex digits. */
  function KeyOf(hex: seq<Byte>): Option<seq<Byte>> {
    if hex == [] then Some([])
    else if |hex| == 1 || ToHex(hex[0]) < 0 || ToHex(hex[1]) < 0 then None
    else match KeyOf(hex[2..])
         case None => None
         case Some(k) => Some([ToHex(hex[0]) * 16 + ToHex(hex[1])] + k)
  }

  /** The character is the hex digit of the value, in lower or upper case. */
  predicate DigitOf(c: Byte, v: int) {
    0 <= v < 16 && (c == "0123456789abcdef"[v] as int || c == "0123456789ABCDEF"[v] as int)
  }

  lemma ToHexIff(c: Byte, v: int)
    ensures 0 <= v ==> (ToHex(c) == v <==> DigitOf(c, v))
  {
  }

  /** Two digits for each byte of the key, the high half first. */
  predicate Spells(hex: seq<Byte>, key: seq<Byte>) {
    && |hex| == 2 * |key|
    && forall i | 0 <= i < |key| :: DigitOf(hex[2 * i], key[i] / 16) && DigitOf(hex[2 * i + 1], key[i] % 16)
  }

  lemma SpellsStep(hex: seq<Byte>, key: seq<Byte>)
    requires |hex| == 2 * |key| && key != []
    ensures Spells(hex, key) <==>
      DigitOf(hex[0], key[0] / 16) && DigitOf(hex[1], key[0] % 16) && Spells(hex[2..], key[1..])
  {
    hide DigitOf;
    if Spells(hex, key) {
      forall i | 0 <= i < |key| - 1
        ensures DigitOf(hex[2..][2 * i], key[1..][i] / 16) && DigitOf(hex[2..][2 * i + 1], key[1..][i] % 16)
      {
        var k := i + 1;
        assert hex[2..][2 * i] == hex[2 * k] && hex[2..][2 * i + 1] == hex[2 * k + 1] && key[1..][i] == key[k];
      }
    } else if DigitOf(hex[0], key[0] / 16) && DigitOf(hex[1], key[0] % 16) && Spells(hex[2..], key[1..]) {
      forall i | 0 <= i < |key| ensures DigitOf(hex[2 * i], key[i] / 16) && DigitOf(hex[2 * i + 1], key[i] % 16) {
        if i > 0 {
          var k := i - 1;
          assert hex[2..][2 * k] == hex[2 * i] && hex[2..][2 * k + 1] == hex[2 * i + 1] && key[1..][k] == key[i];
        }
      }
    }
  }

  /** A text decodes to a key exactly if it spells it, in digits of either case. */
  lemma {:induction false} KeyOfIff(hex: seq<Byte>, key: seq<Byte>)
    ensures KeyOf(hex) == Some(key) <==> Spells(hex, key)
    decreases |hex|
  {
    KeyLength(hex);
    if |hex| < 2 || |hex| != 2 * |key| {
    } else {
      var hi, lo := ToHex(hex[0]), ToHex(hex[1]);
      ToHexIff(hex[0], key[0] / 16);
      ToHexIff(hex[1], key[0] % 16);
      KeyOfIff(hex[2..], key[1..]);
      SpellsStep(hex, key);
      assert key == [key[0]] + key[1..];
      KeyStep(hex);
      hide KeyOf, ToHex, DigitOf, Spells;
      if KeyOf(hex) == Some(key) {
        assert KeyOf(hex).value[0] == hi * 16 + lo && KeyOf(hex).value[1..] == KeyOf(hex[2..]).value;
      }
    }
  }

  lemma KeyStep(hex: seq<Byte>)
    requires |hex| >= 2
    ensures KeyOf(hex)
         == if ToHex(hex[0]) < 0 || ToHex(hex[1]) < 0 then None
            else Join([ToHex(hex[0]) * 16 + ToHex(hex[1])], KeyOf(hex[2..]))
  {
    hide ToHex;
  }

  lemma {:induction false} KeyLength(hex: seq<Byte>)
    ensures KeyOf(hex).Some? ==> |hex| == 2 * |KeyOf(hex).value|
  {
    if |hex| < 2 {
    } else {
      KeyLength(hex[2..]);
    }
  }

  /** A key whose first bytes are known and whose others are still to be decoded. */
  function Join(known: seq<Byte>, more: Option<seq<Byte>>): Option<seq<Byte>> {
    match more
    case None => None
    case Some(k) => Some(known + k)
  }

  /** Two more digits of a hex string. */
  lemma DigitStep(known: seq<Byte>, rest: seq<Byte>)
    requires |rest| >= 2
    ensures
      var hi, lo := ToHex(rest[0]), ToHex(rest[1]);
      Join(known, KeyOf(rest))
      == if hi < 0 || lo < 0 then None else Join(known + [hi * 16 + lo], KeyOf(rest[2..]))
  {
    hide ToHex;
    var hi, lo, tail := ToHex(rest[0]), ToHex(rest[1]), KeyOf(rest[2..]);
    assert KeyOf(rest) == if hi < 0 || lo < 0 then None else Join([hi * 16 + lo], tail);
    hide KeyOf;
    if hi >= 0 && lo >= 0 && tail.Some? {
      assert known + ([hi * 16 + lo] + tail.value) == known + [hi * 16 + lo] + tail.value;
    }
  }

  /** The body of the decoding loop: the high half of a byte, then the low half. */
  method DecodeByte(psk: array<Byte>, n: nat, a: Byte, b: Byte) returns (ok: bool)
    requires n < psk.Length
    modifies psk
    ensures ok <==> ToHex(a) >= 0 && ToHex(b) >= 0
    ensures ok ==> psk[..n + 1] == old(psk[..n]) + [ToHex(a) * 16 + ToHex(b)]
    ensures forall i | 0 <= i < psk.Length && i != n :: psk[i] == old(psk[i])
  {
    var hi := ToHex(a);
    if hi < 0 { return false; }
    psk[n] := hi * 16;
    var lo := ToHex(b);
    if lo < 0 { return false; }
    psk[n] := psk[n] + lo;
    ok := true;
  }

  /** The key a hex string stands for if there is one and it fits, and [] otherwise. */
  function Usable(hex: seq<Byte>, max: nat): seq<Byte> {
    match KeyOf(hex)
    case None => []
    case Some(k) => if |k| <= max then k else []
  }

  /** _tls_psk_decode_key: the number of key bytes put into `psk`, or 0. */
  method DecodeKey(hex: seq<Byte>, psk: array<Byte>) returns (n: nat)
    modifies psk
    ensures n <= psk.Length && psk[..n] == Usable(hex, psk.Length)
  {
    KeyLength(hex);
    if |hex| % 2 != 0 { return 0; }
    forall i | 0 <= i < psk.Length { psk[i] := 0; }
    n := 0;
    var rest := hex;
    assert KeyOf(hex).Some? ==> [] + KeyOf(hex).value == KeyOf(hex).value;
    while rest != [] && n < psk.Length
      invariant n <= psk.Length && |rest| % 2 == 0
      invariant KeyOf(hex) == Join(psk[..n], KeyOf(rest))
      decreases |rest|
    {
      hide KeyOf, ToHex, Join;
      DigitStep(psk[..n], rest);
      var ok := DecodeByte(psk, n, rest[0], rest[1]);
      if !ok { return 0; }
      rest, n := rest[2..], n + 1;
    }
    KeyLength(rest);
    if rest != [] { return 0; }
    assert psk[..n] + [] == psk[..n];
  }

  // ----- Lines ------------------------------------------------------------------------------

  /** The first line of a text, with its newline if there is one. */
  function FirstLine(s: seq<Byte>): (l: seq<Byte>)
    ensures l <= s
  {
    if s == [] then [] else if s[0] == NEWLINE then [s[0]] else [s[0]] + FirstLine(s[1..])
  }

  /** _fgets: the length of the next line, or -1 if it does not fit with room to spare. */
  method Fgets(buf: array<Byte>, len: nat, file: seq<Byte>) returns (bytes: int, rest: seq<Byte>)
    requires len <= buf.Length
    modifies buf
    ensures |FirstLine(file)| < len ==>
      && bytes == |FirstLine(file)| && rest == file[bytes..]
      && buf[..bytes] == FirstLine(file) && buf[bytes] == 0
    ensures |FirstLine(file)| >= len ==> bytes == -1
  {
    bytes := 0;
    var ended := false;
    while bytes < len && bytes < |file| && !ended
      invariant 0 <= bytes <= len && bytes <= |file|
      invariant buf[..bytes] == file[..bytes]
      invariant FirstLine(file) == file[..bytes] + if ended then [] else FirstLine(file[bytes..])
      decreases |file| - bytes
    {
      buf[bytes] := file[bytes];
      LineStep(file, bytes);
      ended := file[bytes] == NEWLINE;
      bytes := bytes + 1;
    }
    rest := file[bytes..];
    if bytes == len { return -1, rest; }
    buf[bytes] := 0;
  }

  lemma LineStep(file: seq<Byte>, i: nat)
    requires i < |file|
    ensures file[..i] + FirstLine(file[i..]) == file[..i + 1] + if file[i] == NEWLINE then [] else FirstLine(file[i + 1..])
  {
    var s := file[i..];
    assert FirstLine(s) == if s[0] == NEWLINE then [s[0]] else [s[0]] + FirstLine(s[1..]);
    hide FirstLine;
    assert s[1..] == file[i + 1..] && [s[0]] + [] == [s[0]];
    Shift(file, i, if file[i] == NEWLINE then [] else FirstLine(file[i + 1..]));
  }

  lemma Shift(file: seq<Byte>, i: nat, more: seq<Byte>)
    requires i < |file|
    ensures file[..i] + ([file[i]] + more) == file[..i + 1] + more
  {
  }

  // ----- Lookup -----------------------------------------------------------------------------

  /** The C string at the start of a buffer. */
  function CString(s: seq<Byte>): (r: seq<Byte>)
    ensures r <= s && 0 !in r
    ensures |r| < |s| ==> s[|r|] == 0
  {
    if s == [] || s[0] == 0 then [] else [s[0]] + CString(s[1..])
  }

  /** The text before the first colon, which is all of it if there is none. */
  function Before(s: seq<Byte>): (r: seq<Byte>)
    ensures r <= s && COLON !in r
    ensures |r| < |s| ==> s[|r|] == COLON
  {
    if s == [] || s[0] == COLON then [] else [s[0]] + Before(s[1..])
  }

  /** Newlines and returns at the end are dropped, but never the first character. */
  function Strip(s: seq<Byte>): (r: seq<Byte>)
    ensures r <= s
  {
    if |s| > 1 && (s[|s| - 1] == NEWLINE || s[|s| - 1] == RETURN) then Strip(s[..|s| - 1]) else s
  }

  /** Identity and hex key of a line; None if the line has no colon. */
  function Split(line: seq<Byte>): Option<(seq<Byte>, seq<Byte>)> {
    var text := CString(line);
    var id := Before(text);
    if id == text then None else Some((id, Strip(text[|id| + 1..])))
  }

  /** The key _tls_psk_server_cb finds, [] where it returns 0: the first line that matches decides. */
  function Find(file: seq<Byte>, identity: seq<Byte>, max: nat): seq<Byte>
    decreases |file|
  {
    var line := FirstLine(file);
    if line == [] || |line| >= LINE_ROOM then []
    else match Split(line)
         case None => Find(file[|line|..], identity, max)
         case Some((id, hex)) =>
           if identity == [] || id == identity then Usable(hex, max) else Find(file[|line|..], identity, max)
  }

  /** A line of a key file: identity, key text, and whether it ends in return and newline. */
  datatype Entry = Entry(id: seq<Byte>, hex: seq<Byte>, cr: bool)

  function Line(e: Entry): seq<Byte> {
    e.id + [0x3a] + e.hex + (if e.cr then [0x0d] else []) + [0x0a]
  }

  function Print(es: seq<Entry>): seq<Byte> {
    if es == [] then [] else Line(es[0]) + Print(es[1..])
  }

  /** A line that is short enough, of a text free of the characters that structure it. */
  predicate Printable(e: Entry) {
    && 0 !in e.id && 0x3a !in e.id && 0x0a !in e.id
    && 0 !in e.hex && 0x0d !in e.hex && 0x0a !in e.hex
    && |Line(e)| <= 1022
  }

  /** An empty identity, or none at all, asks for any entry. */
  predicate Matches(e: Entry, identity: seq<Byte>) {
    identity == [] || e.id == identity
  }

  /** What the entry is worth: the key it spells if that fits, otherwise nothing. */
  ghost predicate Yields(e: Entry, max: nat, found: seq<Byte>) {
    (found == [] && !exists key :: Spells(e.hex, key) && |key| <= max) || (Spells(e.hex, found) && |found| <= max)
  }

  lemma {:induction false} FirstLineOf(text: seq<Byte>, rest: seq<Byte>)
    requires NEWLINE !in text
    ensures FirstLine(text + [NEWLINE] + rest) == text + [NEWLINE]
  {
    if text == [] {
      assert (text + [NEWLINE] + rest)[0] == NEWLINE;
    } else {
      assert (text + [NEWLINE] + rest)[1..] == text[1..] + [NEWLINE] + rest;
      FirstLineOf(text[1..], rest);
    }
  }

  lemma {:induction false} CStringOf(text: seq<Byte>)
    requires 0 !in text
    ensures CString(text) == text
  {
    if text == [] {
    } else {
      CStringOf(text[1..]);
    }
  }

  lemma {:induction false} BeforeOf(id: seq<Byte>, rest: seq<Byte>)
    requires COLON !in id
    ensures Before(id + [COLON] + rest) == id
  {
    if id == [] {
      assert (id + [COLON] + rest)[0] == COLON;
    } else {
      assert (id + [COLON] + rest)[1..] == id[1..] + [COLON] + rest;
      BeforeOf(id[1..], rest);
    }
  }

  /** The key text of a line; of an empty one a line end is left, which is no key. */
  lemma SplitOf(e: Entry)
    requires Printable(e)
    ensures Split(Line(e)) == Some((e.id, if e.hex != [] then e.hex else if e.cr then [0x0d] else [0x0a]))
  {
    var end := (if e.cr then [RETURN] else []) + [NEWLINE];
    assert Line(e) == e.id + [COLON] + (e.hex + end);
    assert 0 !in Line(e);
    CStringOf(Line(e));
    BeforeOf(e.id, e.hex + end);
    assert Line(e)[|e.id| + 1..] == e.hex + end;
    StripOf(e.hex, e.cr);
  }

  lemma StripOf(hex: seq<Byte>, cr: bool)
    requires NEWLINE !in hex && RETURN !in hex
    ensures Strip(hex + ((if cr then [RETURN] else []) + [NEWLINE]))
         == if hex != [] then hex else if cr then [RETURN] else [NEWLINE]
  {
    if hex != [] { assert hex[|hex| - 1] in hex; }
    assert Strip(hex) == hex && Strip([NEWLINE]) == [NEWLINE] && Strip([RETURN]) == [RETURN];
    assert [] + [NEWLINE] == [NEWLINE] && hex + [NEWLINE] == hex + ([] + [NEWLINE]);
    assert hex + [RETURN] + [NEWLINE] == hex + ([RETURN] + [NEWLINE]);
    StripOne(hex + [RETURN], NEWLINE);
    StripOne(hex, if cr then RETURN else NEWLINE);
    hide Strip;
    assert hex == [] ==> hex + [RETURN] == [RETURN];
  }

  lemma StripOne(s: seq<Byte>, c: Byte)
    requires c == NEWLINE || c == RETURN
    ensures Strip(s + [c]) == if s == [] then [c] else Strip(s)
  {
    assert (s + [c])[..|s|] == s;
  }

  /** The key found for a key text. */
  lemma UsableYields(e: Entry, max: nat, hex: seq<Byte>)
    requires hex == if e.hex != [] then e.hex else if e.cr then [0x0d] else [0x0a]
    ensures Yields(e, max, Usable(hex, max))
  {
    if e.hex == [] {
      assert KeyOf(hex).None? && Spells(e.hex, []);
    } else {
      forall key ensures KeyOf(hex) == Some(key) <==> Spells(e.hex, key) { KeyOfIff(hex, key); }
      hide KeyOf, Spells;
    }
  }

  lemma FindStep(e: Entry, rest: seq<Byte>, identity: seq<Byte>, max: nat)
    requires Printable(e)
    ensures if Matches(e, identity) then Yields(e, max, Find(Line(e) + rest, identity, max))
            else Find(Line(e) + rest, identity, max) == Find(rest, identity, max)
  {
    var text := e.id + [COLON] + e.hex + if e.cr then [RETURN] else [];
    assert NEWLINE !in text;
    assert Line(e) == text + [NEWLINE];
    FirstLineOf(text, rest);
    SplitOf(e);
    UsableYields(e, max, Split(Line(e)).value.1);
    hide Split, KeyOf, FirstLine, Usable, Yields;
    assert (Line(e) + rest)[|Line(e)|..] == rest;
  }

  /** The first of the entries that matches. */
  predicate FirstMatch(es: seq<Entry>, identity: seq<Byte>, i: nat) {
    i < |es| && Matches(es[i], identity) && forall e <- es[..i] :: !Matches(e, identity)
  }

  /**
    Lookup in a printed file: the first entry of that identity, or of any for an empty one, decides. The result
    is the key it spells if there is one that fits, and none otherwise.
   */
  lemma {:induction false} LookupPrinted(es: seq<Entry>, identity: seq<Byte>, max: nat, i: nat)
    requires (forall e <- es :: Printable(e)) && FirstMatch(es, identity, i)
    ensures Yields(es[i], max, Find(Print(es), identity, max))
    decreases i
  {
    hide Find, Line, Yields, Matches, Printable;
    assert es[0] in es && Print(es) == Line(es[0]) + Print(es[1..]);
    FindStep(es[0], Print(es[1..]), identity, max);
    if i > 0 {
      assert es[0] == es[..i][0] && es[1..][..i - 1] == es[..i][1..];
      hide Print;
      LookupPrinted(es[1..], identity, max, i - 1);
    }
  }

  /** If no entry matches there is no key. */
  lemma {:induction false} LookupMissing(es: seq<Entry>, identity: seq<Byte>, max: nat)
    requires forall e <- es :: Printable(e) && !Matches(e, identity)
    ensures Find(Print(es), identity, max) == []
    decreases |es|
  {
    if es == [] {
      FindNothing(identity, max);
    } else {
      FindStep(es[0], Print(es[1..]), identity, max);
      hide Find, Line, Matches, Printable;
      LookupMissing(es[1..], identity, max);
    }
  }

  lemma FindNothing(identity: seq<Byte>, max: nat)
    ensures Find([], identity, max) == []
  {
  }

  /** A line that does not fit ends the search. */
  lemma LongLine(text: seq<Byte>, rest: seq<Byte>, identity: seq<Byte>, max: nat)
    requires 0x0a !in text && |text| >= 1022
    ensures Find(text + [0x0a] + rest, identity, max) == []
  {
    FirstLineOf(text, rest);
  }

  // ----- The callback -----------------------------------------------------------------------

  /** strchr and strlen: the first position from `from` on that holds 0 or `c`. */
  method Scan(line: array<Byte>, from: nat, c: Byte, ghost text: seq<Byte>) returns (i: nat)
    requires from <= |text| < line.Length && line[..|text|] == text && line[|text|] == 0 && 0 !in text
    ensures from <= i <= |text|
    ensures c !in text[from..i] && (i < |text| ==> text[i] == c)
  {
    i := from;
    while line[i] != 0 && line[i] != c
      invariant from <= i <= |text| && c !in text[from..i]
      decreases |text| - i
    {
      assert line[i] == line[..|text|][i];
      assert text[from..i + 1] == text[from..i] + [text[i]];
      i := i + 1;
    }
    if i < |text| { assert line[i] == line[..|text|][i] && text[i] in text; }
  }

  /** The newline removal: `k` is the index of the last character of the key text at `at`. */
  method DropNewlines(line: array<Byte>, at: nat, end: nat, ghost hex: seq<Byte>) returns (len: nat)
    requires 0 < at && at + |hex| == end < line.Length && line[at..at + |hex|] == hex && line[at - 1] == 0
    modifies line
    ensures at + len < line.Length && line[at..at + len] == Strip(hex)
    ensures line[..at] == old(line[..at])
  {
    var k: int := end - at - 1;
    assert hex[..|hex|] == hex;
    while k != 0 && (line[at + k] == NEWLINE || line[at + k] == RETURN)
      invariant -1 <= k < |hex| && line[at - 1] == 0
      invariant line[at..at + k + 1] == hex[..k + 1] && Strip(hex) == Strip(hex[..k + 1])
      invariant line[..at] == old(line[..at])
      decreases k
    {
      assert line[at + k] == line[at..at + k + 1][k];
      line[at + k] := 0;
      assert hex[..k + 1][..k] == hex[..k] && line[at..at + k] == hex[..k];
      k := k - 1;
    }
    if k >= 0 { assert line[at + k] == line[at..at + k + 1][k]; }
    len := k + 1;
  }

  /** Cuts a line in place: identity and key text are what the pointers `line` and `hexkey` then show. */
  method Cut(line: array<Byte>, bytes: nat) returns (r: Option<(seq<Byte>, seq<Byte>)>)
    requires bytes < line.Length && line[bytes] == 0
    modifies line
    ensures r == Split(old(line[..bytes]))
  {
    hide CString, Before, Strip;
    ghost var text := CString(line[..bytes]);
    assert line[..|text|] == line[..bytes][..|text|] == text;
    assert line[|text|] == 0 by { if |text| < bytes { assert line[..bytes][|text|] == 0; } }
    var i := Scan(line, 0, COLON, text);
    assert text[0..i] == text[..i];
    BeforeAt(text, i);
    if line[i] == 0 { return None; }
    var end := Scan(line, i + 1, 0, text);
    var id, hex := CutAt(line, i, end, text);
    r := Some((id, hex));
  }

  method CutAt(line: array<Byte>, i: nat, end: nat, ghost text: seq<Byte>) returns (id: seq<Byte>, hex: seq<Byte>)
    requires i < end == |text| < line.Length && line[..|text|] == text
    modifies line
    ensures id == text[..i] && hex == Strip(text[i + 1..])
  {
    hide Strip;
    line[i] := 0;
    assert line[i + 1..end] == text[i + 1..] && line[..i] == text[..i];
    var len := DropNewlines(line, i + 1, end, text[i + 1..]);
    assert line[..i] == line[..i + 1][..i];
    id, hex := line[..i], line[i + 1..i + 1 + len];
  }

  lemma {:induction false} BeforeAt(text: seq<Byte>, i: nat)
    requires i <= |text| && COLON !in text[..i] && (i < |text| ==> text[i] == COLON)
    ensures Before(text) == text[..i]
  {
    if i == 0 {
    } else {
      assert text[0] == text[..i][0] && text[1..][..i - 1] == text[..i][1..];
      BeforeAt(text[1..], i - 1);
      assert text[..i] == [text[0]] + text[1..][..i - 1];
    }
  }

  /** _tls_psk_server_cb: the number of key bytes put into `psk`; 0 if the file gives none. */
  method Lookup(file: seq<Byte>, identity: seq<Byte>, psk: array<Byte>) returns (n: nat)
    modifies psk
    ensures n <= psk.Length && psk[..n] == Find(file, identity, psk.Length)
  {
    var line := new Byte[LINE_SIZE];
    var rest := file;
    n := 0;
    while true
      invariant n == 0 && Find(rest, identity, psk.Length) == Find(file, identity, psk.Length)
      decreases |rest|
    {
      var bytes, later := Fgets(line, LINE_ROOM, rest);
      if bytes <= 0 { break; }
      var parts := Cut(line, bytes);
      if parts.Some? && (identity == [] || parts.value.0 == identity) {
        n := DecodeKey(parts.value.1, psk);
        break;
      }
      rest := later;
    }
  }
}
