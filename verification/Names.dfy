/** The reversible escaping between remote names and local file names (internal/namespace/names.go).
    A Go string is a sequence of bytes; here each byte is a char below 256. */
module Names {
  import opened Prelude

  predicate IsBytes(s: string) { forall i | 0 <= i < |s| :: s[i] as int < 256 }

  predicate Between(c: char, lo: int, hi: int) { lo <= c as int <= hi }

  predicate Continuation(c: char) { Between(c, 0x80, 0xBF) }

  /** The length of the well-formed UTF-8 sequence at the start of s (section 4 of RFC 3629), or 0. */
  function RuneLen(s: string): nat {
    if s == [] then 0
    else if s[0] as int < 0x80 then 1
    else if |s| >= 2 && Between(s[0], 0xC2, 0xDF) && Continuation(s[1]) then 2
    else if |s| >= 3 && Continuation(s[2])
         && (|| (s[0] as int == 0xE0 && Between(s[1], 0xA0, 0xBF))
             || (s[0] as int == 0xED && Between(s[1], 0x80, 0x9F))
             || (Between(s[0], 0xE1, 0xEF) && s[0] as int != 0xED && Continuation(s[1]))) then 3
    else if |s| >= 4 && Continuation(s[2]) && Continuation(s[3])
         && (|| (s[0] as int == 0xF0 && Between(s[1], 0x90, 0xBF))
             || (s[0] as int == 0xF4 && Between(s[1], 0x80, 0x8F))
             || (Between(s[0], 0xF1, 0xF3) && Continuation(s[1]))) then 4
    else 0
  }

  predicate ValidUtf8(s: string) {
    s == [] || (0 < RuneLen(s) <= |s| && ValidUtf8(s[RuneLen(s)..]))
  }

  /** The set `/\%<>:"|?*`. */
  predicate IsReserved(c: char) {
    c == '/' || c == '\\' || c == '%' || c == '<' || c == '>' || c == ':' || c == '\"' || c == '|' || c == '?'
      || c == '*'
  }

  predicate DotOrSpace(c: char) { c == '.' || c == ' ' }

  /** unicode.IsControl: C0, DEL and C1. */
  predicate IsControl(rune: string) {
    || (|rune| == 1 && (rune[0] as int < 0x20 || rune[0] as int == 0x7F))
    || (|rune| == 2 && rune[0] as int == 0xC2 && rune[1] as int <= 0x9F)
  }

  function HexDigit(n: int): char
    requires 0 <= n < 16
  {
    if n < 10 then '0' + n as char else 'A' + (n - 10) as char
  }

  function Percent(c: char): string
    requires c as int < 256
  {
    ['%', HexDigit(c as int / 16), HexDigit(c as int % 16)]
  }

  function PercentAll(s: string): (r: string)
    requires IsBytes(s)
    ensures IsBytes(r) && |r| == 3 * |s|
  {
    if s == [] then [] else Percent(s[0]) + PercentAll(s[1..])
  }

  /** Whether Encode escapes a rune; `last` when nothing follows it, `dots` when the name is "." or "..". */
  predicate Escapes(rune: string, last: bool, dots: bool) {
    || IsControl(rune)
    || (|rune| == 1 && (IsReserved(rune[0]) || (last && DotOrSpace(rune[0])) || (dots && rune[0] == '.')))
  }

  /** The first rune's share of the encoding. */
  function EncodeFirst(s: string, dots: bool): (r: string)
    requires IsBytes(s) && RuneLen(s) <= |s|
    ensures IsBytes(r) && RuneLen(s) <= |r|
  {
    var n := RuneLen(s);
    if Escapes(s[..n], n == |s|, dots) then PercentAll(s[..n]) else s[..n]
  }

  function EncodeRunes(s: string, dots: bool): (r: string)
    requires IsBytes(s)
    ensures IsBytes(r) && (ValidUtf8(s) ==> |s| <= |r|)
    decreases |s|
  {
    var n := RuneLen(s);
    if n == 0 || n > |s| then []
    else EncodeFirst(s, dots) + EncodeRunes(s[n..], dots)
  }

  function UpperChar(c: char): char { if 'a' <= c <= 'z' then (c as int - 32) as char else c }

  function Upper(s: string): (r: string)
    ensures |r| == |s|
  {
    if s == [] then [] else [UpperChar(s[0])] + Upper(s[1..])
  }

  function LowerChar(c: char): char { if 'A' <= c <= 'Z' then (c as int + 32) as char else c }

  function Lower(s: string): string { seq(|s|, i requires 0 <= i < |s| => LowerChar(s[i])) }

  /** Two characters that differ at most in the case of a letter. */
  predicate SameLetter(a: char, b: char) {
    || a == b
    || ('A' <= a <= 'Z' && b as int == a as int - 'A' as int + 'a' as int)
    || ('A' <= b <= 'Z' && a as int == b as int - 'A' as int + 'a' as int)
  }

  /** The same text up to the case of its letters. */
  predicate SameText(s: string, t: string) {
    |s| == |t| && forall i | 0 <= i < |s| :: SameLetter(s[i], t[i])
  }

  /** Lowering keeps a text up to case and leaves no capitals, so it tells exactly which texts are the same. */
  lemma LowerIgnoresCase(s: string, t: string)
    ensures SameText(s, Lower(s)) && forall c | c in Lower(s) :: !('A' <= c <= 'Z')
    ensures Lower(s) == Lower(t) <==> SameText(s, t)
  {
    if SameText(s, t) {
      assert Lower(s) == Lower(t);
    }
    if Lower(s) == Lower(t) {
      forall i | 0 <= i < |s| ensures SameLetter(s[i], t[i]) {
        assert Lower(s)[i] == Lower(t)[i];
      }
    }
  }

  /** Everything before the first dot. */
  function Stem(s: string): (r: string)
    ensures r <= s && '.' !in r && (|r| < |s| ==> s[|r|] == '.')
  {
    if s == [] || s[0] == '.' then [] else [s[0]] + Stem(s[1..])
  }

  predicate WindowsDeviceName(name: string) {
    var stem := Upper(Stem(name));
    || stem == "CON" || stem == "PRN" || stem == "AUX" || stem == "NUL" || stem == "CLOCK$"
    || (|stem| == 4 && '1' <= stem[3] <= '9' && (stem[..3] == "COM" || stem[..3] == "LPT"))
  }

  datatype NameError = Invalid | TooLarge

  function Encode(name: string): (r: Result<string, NameError>)
    requires IsBytes(name)
    ensures r.Ok? ==> IsBytes(r.value) && r.value != ""
  {
    if name == "" || !ValidUtf8(name) || (0 as char) in name then Err(Invalid)
    else
      var encoded := EncodeRunes(name, name == "." || name == "..");
      if WindowsDeviceName(name) then Ok(Percent(encoded[0]) + encoded[1..])
      else Ok(encoded)
  }

  predicate Component(name: string) {
    && name != "" && name != "." && name != ".." && ValidUtf8(name)
    && '/' !in name && '\\' !in name && (0 as char) !in name
  }

  const MAX_NAME_BYTES := 255

  function FileName(remote: string): Result<string, NameError>
    requires IsBytes(remote)
  {
    if !Component(remote) then Err(Invalid)
    else
      var name := Encode(remote);
      if name.Ok? && |name.value| > MAX_NAME_BYTES then Err(TooLarge) else name
  }

  function Unhex(c: char): Option<int> {
    if '0' <= c <= '9' then Some(c as int - '0' as int)
    else if 'A' <= c <= 'F' then Some(c as int - 'A' as int + 10)
    else if 'a' <= c <= 'f' then Some(c as int - 'a' as int + 10)
    else None
  }

  /** url.PathUnescape. */
  function Unescape(s: string): (r: Option<string>)
    ensures r.Some? && IsBytes(s) ==> IsBytes(r.value)
  {
    if s == [] then Some([])
    else if s[0] != '%' then
      var rest := Unescape(s[1..]);
      if rest.None? then None else Some([s[0]] + rest.value)
    else if |s| < 3 || Unhex(s[1]).None? || Unhex(s[2]).None? then None
    else
      var rest := Unescape(s[3..]);
      if rest.None? then None else Some([(Unhex(s[1]).value * 16 + Unhex(s[2]).value) as char] + rest.value)
  }

  function ParseFileName(local: string): Result<string, NameError>
    requires IsBytes(local)
  {
    if local == "" || |local| > MAX_NAME_BYTES then Err(Invalid)
    else
      var remote := Unescape(local);
      if remote.None? then Err(Invalid)
      else
        var canonical := FileName(remote.value);
        if canonical.Err? then canonical
        else if canonical.value != local then Err(Invalid)
        else Ok(remote.value)
  }

  lemma EncodeStep(s: string, dots: bool)
    requires IsBytes(s) && ValidUtf8(s) && s != []
    ensures 0 < RuneLen(s) <= |s| && IsBytes(s[RuneLen(s)..]) && ValidUtf8(s[RuneLen(s)..])
    ensures EncodeRunes(s, dots) == EncodeFirst(s, dots) + EncodeRunes(s[RuneLen(s)..], dots)
  {
  }

  lemma EncodeStepAt(name: string, i: nat, dots: bool)
    requires i < |name| && IsBytes(name[i..]) && ValidUtf8(name[i..])
    ensures var n := RuneLen(name[i..]);
            && 0 < n <= |name| - i && IsBytes(name[i + n..]) && ValidUtf8(name[i + n..])
            && EncodeRunes(name[i..], dots) == EncodeFirst(name[i..], dots) + EncodeRunes(name[i + n..], dots)
  {
    EncodeStep(name[i..], dots);
    hide EncodeRunes, EncodeFirst, RuneLen, ValidUtf8, IsBytes;
    assert name[i..][RuneLen(name[i..])..] == name[i + RuneLen(name[i..])..];
  }

  /** Encode's treatment of the rune at position i. */
  method EncodeRuneAt(name: string, i: nat, dots: bool) returns (piece: string, n: nat)
    requires IsBytes(name) && i < |name| && RuneLen(name[i..]) <= |name| - i
    ensures n == RuneLen(name[i..]) && piece == EncodeFirst(name[i..], dots)
  {
    n := RuneLen(name[i..]);
    var rune := name[i..i + n];
    assert rune == name[i..][..n];
    var escape := IsControl(rune) || (|rune| == 1 && IsReserved(rune[0]));
    escape := escape || (|rune| == 1 && DotOrSpace(rune[0]) && i + n == |name|);
    escape := escape || (dots && |rune| == 1 && rune[0] == '.');
    piece := if escape then PercentAll(rune) else rune;
  }

  /** The loop of Encode, rune by rune. */
  method EncodeEach(name: string, dots: bool) returns (encoded: string)
    requires IsBytes(name) && ValidUtf8(name)
    ensures encoded == EncodeRunes(name, dots)
  {
    hide *;
    var i := 0;
    encoded := "";
    assert name[0..] == name;
    while i < |name|
      invariant 0 <= i <= |name| && IsBytes(name[i..]) && ValidUtf8(name[i..])
      invariant encoded + EncodeRunes(name[i..], dots) == EncodeRunes(name, dots)
    {
      EncodeStepAt(name, i, dots);
      var piece, n := EncodeRuneAt(name, i, dots);
      encoded := encoded + piece;
      i := i + n;
    }
    NothingEncodes(name[i..], dots);
  }

  lemma NothingEncodes(s: string, dots: bool)
    requires s == [] && IsBytes(s)
    ensures EncodeRunes(s, dots) == [] && Unescape([]) == Some([]) && Harmless([])
  {
  }

  method EncodeName(name: string) returns (r: Result<string, NameError>)
    requires IsBytes(name)
    ensures r == Encode(name)
  {
    if name == "" || !ValidUtf8(name) || (0 as char) in name { return Err(Invalid); }
    var encoded := EncodeEach(name, name == "." || name == "..");
    if WindowsDeviceName(name) { encoded := Percent(encoded[0]) + encoded[1..]; }
    r := Ok(encoded);
  }

  lemma PercentDecodes(c: char, t: string)
    requires c as int < 256
    ensures Unescape(Percent(c) + t) == if Unescape(t).None? then None else Some([c] + Unescape(t).value)
  {
    var p := Percent(c) + t;
    assert p[3..] == t;
    assert p[0] == '%' && p[1] == HexDigit(c as int / 16) && p[2] == HexDigit(c as int % 16);
  }

  lemma PercentShape(c: char)
    requires c as int < 256
    ensures |Percent(c)| == 3 && Percent(c)[0] == '%'
  {
  }

  lemma PercentAllStep(s: string)
    requires IsBytes(s) && s != []
    ensures s[0] as int < 256 && IsBytes(s[1..]) && PercentAll(s) == Percent(s[0]) + PercentAll(s[1..])
  {
  }

  lemma {:induction false} PercentAllDecodes(s: string, t: string)
    requires IsBytes(s) && Unescape(t).Some?
    ensures Unescape(PercentAll(s) + t) == Some(s + Unescape(t).value)
  {
    hide *;
    if s == [] {
      assert PercentAll(s) + t == t && s + Unescape(t).value == Unescape(t).value;
    } else {
      PercentAllStep(s);
      PercentAllDecodes(s[1..], t);
      assert PercentAll(s) + t == Percent(s[0]) + (PercentAll(s[1..]) + t);
      PercentDecodes(s[0], PercentAll(s[1..]) + t);
      assert s + Unescape(t).value == [s[0]] + (s[1..] + Unescape(t).value);
    }
  }

  lemma PlainStep(c: char, t: string)
    requires c != '%'
    ensures Unescape([c] + t) == if Unescape(t).None? then None else Some([c] + Unescape(t).value)
  {
    assert ([c] + t)[1..] == t;
  }

  lemma {:induction false} PlainDecodes(s: string, t: string)
    requires '%' !in s && Unescape(t).Some?
    ensures Unescape(s + t) == Some(s + Unescape(t).value)
  {
    hide *;
    if s == [] {
      assert s + t == t && s + Unescape(t).value == Unescape(t).value;
    } else {
      PlainDecodes(s[1..], t);
      PlainStep(s[0], s[1..] + t);
      assert s + t == [s[0]] + (s[1..] + t);
      assert s + Unescape(t).value == [s[0]] + (s[1..] + Unescape(t).value);
    }
  }

  lemma UnescapedRuneIsPlain(s: string, last: bool, dots: bool)
    requires 0 < RuneLen(s) <= |s| && !Escapes(s[..RuneLen(s)], last, dots)
    ensures '%' !in s[..RuneLen(s)]
  {
    var r := s[..RuneLen(s)];
    assert forall i | 0 <= i < |r| :: r[i] == s[i] != '%';
  }

  lemma FirstDecodes(s: string, dots: bool, t: string)
    requires IsBytes(s) && 0 < RuneLen(s) <= |s| && Unescape(t).Some?
    ensures Unescape(EncodeFirst(s, dots) + t) == Some(s[..RuneLen(s)] + Unescape(t).value)
  {
    var n := RuneLen(s);
    if Escapes(s[..n], n == |s|, dots) {
      PercentAllDecodes(s[..n], t);
    } else {
      UnescapedRuneIsPlain(s, n == |s|, dots);
      PlainDecodes(s[..n], t);
    }
  }

  lemma {:induction false} RunesDecode(s: string, dots: bool)
    requires IsBytes(s) && ValidUtf8(s)
    ensures Unescape(EncodeRunes(s, dots)) == Some(s)
    decreases |s|
  {
    hide *;
    if s == [] {
      NothingEncodes(s, dots);
    } else {
      var n := RuneLen(s);
      EncodeStep(s, dots);
      RunesDecode(s[n..], dots);
      FirstDecodes(s, dots, EncodeRunes(s[n..], dots));
      assert s == s[..n] + s[n..];
    }
  }

  lemma DeviceStemStartsWithLetter(stem: string)
    requires stem == "CON" || stem == "PRN" || stem == "AUX" || stem == "NUL" || stem == "CLOCK$"
          || (|stem| == 4 && (stem[..3] == "COM" || stem[..3] == "LPT"))
    ensures |stem| >= 3 && 'A' <= stem[0] <= 'Z'
  {
    if |stem| == 4 { assert stem[0] == stem[..3][0]; }
  }

  lemma LettersArePlain(name: string)
    requires name != [] && 'A' <= UpperChar(name[0]) <= 'Z'
    ensures RuneLen(name) == 1 && !Escapes(name[..1], false, false) && name[0] != '%'
  {
  }

  lemma DeviceNamesStartPlain(name: string)
    requires WindowsDeviceName(name)
    ensures |name| >= 3 && RuneLen(name) == 1 && !Escapes(name[..1], false, false) && name[0] != '%'
  {
    DeviceStemStartsWithLetter(Upper(Stem(name)));
    UpperAt(Stem(name), 0);
    assert Stem(name)[0] == name[0];
    LettersArePlain(name);
  }

  lemma DeviceNameEncoding(name: string, dots: bool)
    requires IsBytes(name) && WindowsDeviceName(name) && ValidUtf8(name) && !dots
    ensures ValidUtf8(name[1..]) && EncodeRunes(name, dots) == [name[0]] + EncodeRunes(name[1..], dots)
    ensures name[0] != '%'
  {
    DeviceNamesStartPlain(name);
    assert EncodeFirst(name, dots) == name[..1] == [name[0]];
  }

  /** Escaping loses nothing, for catalog labels and file names alike. */
  lemma EncodeDecodes(name: string)
    requires IsBytes(name) && Encode(name).Ok?
    ensures Unescape(Encode(name).value) == Some(name)
  {
    var dots := name == "." || name == "..";
    RunesDecode(name, dots);
    if WindowsDeviceName(name) {
      DeviceNamesStartPlain(name);
      DeviceNameEncoding(name, dots);
      hide WindowsDeviceName, RuneLen, EncodeRunes;
      var e := EncodeRunes(name, dots);
      assert e[0] == name[0] && e[1..] == EncodeRunes(name[1..], dots);
      RunesDecode(name[1..], dots);
      PercentDecodes(e[0], e[1..]);
      assert name == [name[0]] + name[1..];
    }
  }

  /** FileName and ParseFileName are inverse bijections between the names they accept. */
  lemma FileNamesAreABijection(remote: string, local: string)
    requires IsBytes(remote) && IsBytes(local)
    ensures FileName(remote) == Ok(local) <==> ParseFileName(local) == Ok(remote)
  {
    if FileName(remote) == Ok(local) {
      EncodeDecodes(remote);
    }
  }

  /** Every rune of s is harmless: no control rune and no reserved character except '%'. */
  predicate Harmless(s: string) {
    s == [] ||
    (var n := RuneLen(s);
     && 0 < n <= |s| && !IsControl(s[..n])
     && (n == 1 ==> s[0] == '%' || !IsReserved(s[0]))
     && Harmless(s[n..]))
  }

  lemma RuneLenLocal(s: string, t: string)
    requires 0 < RuneLen(s) <= |s|
    ensures RuneLen(s + t) == RuneLen(s) && (s + t)[..RuneLen(s)] == s[..RuneLen(s)]
    ensures RuneLen(s[..RuneLen(s)]) == RuneLen(s)
  {
  }

  lemma HarmlessTail(s: string)
    requires Harmless(s) && s != []
    ensures 0 < RuneLen(s) <= |s| && Harmless(s[RuneLen(s)..])
  {
  }

  lemma HarmlessFront(s: string, t: string)
    requires Harmless(s) && s != [] && 0 < RuneLen(s) <= |s| && Harmless(s[RuneLen(s)..] + t)
    ensures Harmless(s + t)
  {
    RuneLenLocal(s, t);
    hide RuneLen, IsControl, IsReserved;
    assert (s + t)[RuneLen(s)..] == s[RuneLen(s)..] + t;
  }

  lemma {:induction false} HarmlessConcat(s: string, t: string)
    requires Harmless(s) && Harmless(t)
    ensures Harmless(s + t)
    decreases |s|
  {
    hide *;
    if s == [] {
      assert s + t == t;
    } else {
      HarmlessTail(s);
      HarmlessConcat(s[RuneLen(s)..], t);
      HarmlessFront(s, t);
    }
  }

  lemma {:induction false} PercentAllHarmless(s: string)
    requires IsBytes(s)
    ensures Harmless(PercentAll(s))
  {
    if s != [] {
      PercentAllHarmless(s[1..]);
      var p := Percent(s[0]);
      assert p[1..][1..][1..] == [] && p[1..][1..] == [p[2]] && p[1..] == [p[1], p[2]];
      assert Harmless(p[1..][1..]);
      HarmlessConcat(p, PercentAll(s[1..]));
    }
  }

  lemma FirstHarmless(s: string, dots: bool)
    requires IsBytes(s) && 0 < RuneLen(s) <= |s|
    ensures Harmless(EncodeFirst(s, dots)) && EncodeFirst(s, dots) != []
    ensures RuneLen(s) == |s| ==> var e := EncodeFirst(s, dots); !DotOrSpace(e[|e| - 1])
  {
    var n := RuneLen(s);
    var rune := s[..n];
    if Escapes(rune, n == |s|, dots) {
      PercentAllHarmless(rune);
      PercentAllEnd(rune);
    } else {
      RuneLenLocal(s, []);
      assert rune[n..] == [];
    }
  }

  lemma {:induction false} RunesHarmless(s: string, dots: bool)
    requires IsBytes(s) && ValidUtf8(s)
    ensures Harmless(EncodeRunes(s, dots))
    ensures var e := EncodeRunes(s, dots); s != [] ==> e != [] && !DotOrSpace(e[|e| - 1])
    decreases |s|
  {
    hide *;
    if s == [] {
      NothingEncodes(s, dots);
    } else {
      var n := RuneLen(s);
      EncodeStep(s, dots);
      FirstHarmless(s, dots);
      RunesHarmless(s[n..], dots);
      HarmlessConcat(EncodeFirst(s, dots), EncodeRunes(s[n..], dots));
      if n == |s| { NothingEncodes(s[n..], dots); }
    }
  }

  lemma {:induction false} PercentAllEnd(s: string)
    requires IsBytes(s) && s != []
    ensures var p := PercentAll(s); p != [] && !DotOrSpace(p[|p| - 1])
  {
    if |s| > 1 {
      PercentAllEnd(s[1..]);
    } else {
      assert PercentAll(s) == Percent(s[0]);
    }
  }

  lemma PrefixGlue(s: string, n: nat, rest: string, k: nat)
    requires n <= |s| && n <= k && k - n <= |s[n..]| && k - n <= |rest|
    requires s[n..][..k - n] == rest[..k - n]
    ensures k <= |s| && s[..k] == (s[..n] + rest)[..k]
  {
    assert s[..k] == s[..n] + s[n..][..k - n];
  }

  lemma PercentAllStart(s: string)
    requires IsBytes(s) && s != []
    ensures PercentAll(s)[0] == '%'
  {
  }

  lemma FirstIsPlain(s: string, dots: bool, k: nat)
    requires IsBytes(s) && 0 < RuneLen(s) <= |s| && 0 < k <= |EncodeRunes(s, dots)| && '%' !in EncodeRunes(s, dots)[..k]
    ensures EncodeFirst(s, dots) == s[..RuneLen(s)]
  {
    var e := EncodeRunes(s, dots);
    assert e[0] == e[..k][0] != '%';
    assert e[0] == EncodeFirst(s, dots)[0];
    PercentAllStart(s[..RuneLen(s)]);
  }

  lemma NoneInTail(e: string, head: string, rest: string, k: nat)
    requires e == head + rest && |head| <= k <= |e| && '%' !in e[..k]
    ensures '%' !in rest[..k - |head|]
  {
    assert e[..k] == head + rest[..k - |head|];
  }

  /** A prefix of the encoding without escapes is a prefix of the name itself. */
  lemma {:induction false} PlainPrefixSurvives(s: string, dots: bool, k: nat)
    requires IsBytes(s) && ValidUtf8(s) && k <= |EncodeRunes(s, dots)| && '%' !in EncodeRunes(s, dots)[..k]
    ensures k <= |s| && s[..k] == EncodeRunes(s, dots)[..k]
    decreases |s|
  {
    if s != [] && k > 0 {
      var n := RuneLen(s);
      EncodeStep(s, dots);
      FirstIsPlain(s, dots, k);
      hide RuneLen, EncodeFirst, IsBytes, EncodeRunes, ValidUtf8;
      var rest := EncodeRunes(s[n..], dots);
      if n <= k {
        NoneInTail(EncodeRunes(s, dots), s[..n], rest, k);
        PlainPrefixSurvives(s[n..], dots, k - n);
        PrefixGlue(s, n, rest, k);
      } else {
        assert (s[..n] + rest)[..k] == s[..k];
      }
    }
  }

  lemma DeviceStemsArePlain(s: string)
    requires WindowsDeviceName(s)
    ensures '%' !in Stem(s)
  {
    var stem := Stem(s);
    forall i | 0 <= i < |stem| ensures stem[i] != '%' {
      UpperAt(stem, i);
      assert |stem| == 4 && i < 3 ==> Upper(stem)[i] == Upper(stem)[..3][i];
    }
  }

  lemma {:induction false} UpperAt(s: string, i: nat)
    requires i < |s|
    ensures Upper(s)[i] == UpperChar(s[i])
  {
    if i > 0 { UpperAt(s[1..], i - 1); }
  }

  lemma {:induction false} StemIsTheDotFreePrefix(s: string, k: nat)
    requires k <= |s| && '.' !in s[..k] && (k < |s| ==> s[k] == '.')
    ensures Stem(s) == s[..k]
  {
    var t := Stem(s);
    assert forall i | 0 <= i < k :: s[i] == s[..k][i] != '.';
    assert forall i | 0 <= i < |t| :: s[i] == t[i] != '.';
  }

  lemma OrdinaryNamesStayOrdinary(name: string, dots: bool)
    requires IsBytes(name) && ValidUtf8(name) && !WindowsDeviceName(name)
    ensures !WindowsDeviceName(EncodeRunes(name, dots))
  {
    var e := EncodeRunes(name, dots);
    assert WindowsDeviceName(e) ==> WindowsDeviceName(name) by {
      if WindowsDeviceName(e) {
        DeviceStemsArePlain(e);
        PlainStemSurvives(name, dots);
      }
    }
  }

  lemma PlainStemSurvives(name: string, dots: bool)
    requires IsBytes(name) && ValidUtf8(name) && '%' !in Stem(EncodeRunes(name, dots))
    ensures Stem(name) == Stem(EncodeRunes(name, dots))
  {
    EncodingIsNoShorter(name, dots);
    hide *;
    var e := EncodeRunes(name, dots);
    var m := if |Stem(e)| < |e| then |Stem(e)| + 1 else |e|;
    PlainStemPrefix(e, m);
    PlainPrefixSurvives(name, dots, m);
    StemFromPrefix(name, e, m);
  }

  lemma PlainStemPrefix(e: string, m: nat)
    requires m == (if |Stem(e)| < |e| then |Stem(e)| + 1 else |e|) && '%' !in Stem(e)
    ensures '%' !in e[..m]
  {
    hide *;
    assert forall i | 0 <= i < |Stem(e)| :: e[i] == Stem(e)[i] != '%';
  }

  lemma StemFromPrefix(name: string, e: string, m: nat)
    requires |name| <= |e| && m == (if |Stem(e)| < |e| then |Stem(e)| + 1 else |e|) && m <= |name|
             && name[..m] == e[..m]
    ensures Stem(name) == Stem(e)
  {
    var k := |Stem(e)|;
    hide *;
    assert forall i | 0 <= i < m :: name[i] == name[..m][i] == e[..m][i] == e[i];
    assert forall i | 0 <= i < k :: e[i] == Stem(e)[i] != '.';
    StemIsTheDotFreePrefix(name, k);
  }

  lemma EncodingIsNoShorter(name: string, dots: bool)
    requires IsBytes(name) && ValidUtf8(name)
    ensures |name| <= |EncodeRunes(name, dots)|
  {
  }

  ghost predicate SafeLocally(e: string) {
    && e != "" && Harmless(e) && !DotOrSpace(e[|e| - 1])
    && !WindowsDeviceName(e) && e != "." && e != ".."
  }

  lemma EscapedFirstIsSafe(c: char, t: string)
    requires c as int < 256 && Harmless(t) && t != [] && !DotOrSpace(t[|t| - 1])
    ensures SafeLocally(Percent(c) + t)
  {
    PercentIsHarmless(c);
    PercentShape(c);
    hide *;
    var e := Percent(c) + t;
    HarmlessConcat(Percent(c), t);
    DeviceNamesAreNotEscaped(e);
    assert e[0] == '%' && e[|e| - 1] == t[|t| - 1];
    OrdinaryNameIsSafe(e);
  }

  lemma PercentIsHarmless(c: char)
    requires c as int < 256
    ensures Harmless(Percent(c))
  {
    PercentAllHarmless([c]);
    assert PercentAll([c]) == Percent(c) + PercentAll([]) == Percent(c);
  }

  lemma DeviceNamesAreNotEscaped(e: string)
    ensures WindowsDeviceName(e) ==> |e| >= 3 && e[0] != '%'
  {
    if WindowsDeviceName(e) { DeviceNamesStartPlain(e); }
  }

  lemma DeviceNamesBecomeSafe(name: string)
    requires IsBytes(name) && ValidUtf8(name) && WindowsDeviceName(name)
    ensures var e := EncodeRunes(name, false); e != [] && SafeLocally(Percent(e[0]) + e[1..])
  {
    DeviceNamesStartPlain(name);
    DeviceNameEncoding(name, false);
    RunesHarmless(name[1..], false);
    hide WindowsDeviceName, RuneLen, Harmless, ValidUtf8, Percent, EncodeRunes;
    var e := EncodeRunes(name, false);
    assert e[1..] == EncodeRunes(name[1..], false);
    EscapedFirstIsSafe(e[0], e[1..]);
  }

  /** What a local name never contains: control runes, reserved characters, a trailing dot or space, a
      Windows device stem; and it is never "." or "..". */
  lemma EncodedNamesAreSafe(name: string)
    requires IsBytes(name) && Encode(name).Ok?
    ensures SafeLocally(Encode(name).value)
  {
    EncodeForm(name);
    hide *;
    var dots := name == "." || name == "..";
    if WindowsDeviceName(name) {
      DeviceNamesBecomeSafe(name);
    } else {
      RunesHarmless(name, dots);
      OrdinaryNamesStayOrdinary(name, dots);
      OrdinaryNameIsSafe(EncodeRunes(name, dots));
    }
  }

  lemma OrdinaryNameIsSafe(e: string)
    requires e != "" && Harmless(e) && !DotOrSpace(e[|e| - 1]) && !WindowsDeviceName(e)
    ensures SafeLocally(e)
  {
    hide Harmless, WindowsDeviceName;
  }

  lemma EncodeForm(name: string)
    requires IsBytes(name) && Encode(name).Ok?
    ensures name != "" && ValidUtf8(name)
    ensures if WindowsDeviceName(name)
            then |EncodeRunes(name, false)| > 0
                 && var e := EncodeRunes(name, false); Encode(name).value == Percent(e[0]) + e[1..]
            else Encode(name).value == EncodeRunes(name, name == "." || name == "..")
  {
    if WindowsDeviceName(name) { DeviceNamesStartPlain(name); }
  }

  // ----- what stays as it is ------------------------------------------------------------------

  lemma HarmlessStep(s: string)
    requires Harmless(s) && s != [] && '%' !in s
    ensures var n := RuneLen(s);
            && 0 < n <= |s| && Harmless(s[n..]) && '%' !in s[n..] && ValidUtf8(s[n..])
            && !IsControl(s[..n]) && (n == 1 ==> !IsReserved(s[0]))
  {
    HarmlessHasNoSeparator(s[RuneLen(s)..]);
  }

  lemma LastRune(s: string)
    requires s != [] && RuneLen(s) == 1 == |s| && !DotOrSpace(s[|s| - 1]) && !IsControl(s[..1]) && !IsReserved(s[0])
    ensures !Escapes(s[..1], true, false)
  {
  }

  lemma FirstStays(s: string)
    requires IsBytes(s) && s != [] && 0 < RuneLen(s) <= |s| && !DotOrSpace(s[|s| - 1])
    requires !IsControl(s[..RuneLen(s)]) && (RuneLen(s) == 1 ==> !IsReserved(s[0]))
    ensures EncodeFirst(s, false) == s[..RuneLen(s)]
  {
    if RuneLen(s) == 1 == |s| { LastRune(s); }
  }

  lemma GluedStays(s: string, n: nat)
    requires 0 < n <= |s| && IsBytes(s)
    ensures IsBytes(s[n..]) && s == s[..n] + s[n..] && (s[n..] != [] ==> s[n..][|s| - n - 1] == s[|s| - 1])
  {
  }

  /** Nothing is escaped that need not be. */
  lemma {:induction false} HarmlessStays(s: string)
    requires IsBytes(s) && Harmless(s) && '%' !in s && (s != [] ==> !DotOrSpace(s[|s| - 1]))
    ensures ValidUtf8(s) && EncodeRunes(s, false) == s
    decreases |s|
  {
    hide *;
    HarmlessHasNoSeparator(s);
    if s == [] {
      NothingEncodes(s, false);
    } else {
      HarmlessStep(s);
      FirstStays(s);
      EncodeStep(s, false);
      GluedStays(s, RuneLen(s));
      HarmlessStays(s[RuneLen(s)..]);
    }
  }

  lemma BytesTail(s: string, n: nat)
    requires IsBytes(s) && n <= |s|
    ensures IsBytes(s[n..])
  {
  }

  /** An encoding as long as the name has escaped nothing. */
  lemma {:induction false} UnescapedHasNoPercent(s: string, dots: bool)
    requires IsBytes(s) && ValidUtf8(s) && EncodeRunes(s, dots) == s
    ensures '%' !in s
    decreases |s|
  {
    if s != [] {
      var n := RuneLen(s);
      EncodeStep(s, dots);
      EncodingIsNoShorter(s[n..], dots);
      FirstIsWhole(s, dots);
      var e, rest := EncodeFirst(s, dots), EncodeRunes(s[n..], dots);
      assert s == s[..n] + s[n..];
      hide EncodeFirst, EncodeRunes, RuneLen, IsBytes, ValidUtf8;
      assert |e| == n && rest == s[n..] by { assert s[..|e|] == e && s[|e|..] == rest; }
      UnescapedHasNoPercent(s[n..], dots);
    }
  }

  lemma FirstIsWhole(s: string, dots: bool)
    requires IsBytes(s) && 0 < RuneLen(s) <= |s|
    ensures |EncodeFirst(s, dots)| == RuneLen(s) ==> '%' !in s[..RuneLen(s)]
    ensures |EncodeFirst(s, dots)| >= RuneLen(s)
  {
    var n := RuneLen(s);
    if !Escapes(s[..n], n == |s|, dots) { UnescapedRuneIsPlain(s, n == |s|, dots); }
  }

  lemma DeviceNamesGrow(name: string)
    requires IsBytes(name) && Encode(name).Ok?
    ensures WindowsDeviceName(name) ==> |Encode(name).value| > |name|
  {
    EncodeForm(name);
    if WindowsDeviceName(name) {
      hide WindowsDeviceName, EncodeRunes, ValidUtf8;
      PercentShape(EncodeRunes(name, false)[0]);
      EncodingIsNoShorter(name, false);
    }
  }

  /** A name is its own encoding exactly when it is already safe and contains no percent sign. */
  lemma SafeNamesStay(name: string)
    requires IsBytes(name)
    ensures Encode(name) == Ok(name) <==> SafeLocally(name) && '%' !in name
  {
    if SafeLocally(name) && '%' !in name {
      HarmlessHasNoSeparator(name);
      HarmlessStays(name);
    }
    if Encode(name) == Ok(name) {
      EncodedNamesAreSafe(name);
      EncodeForm(name);
      DeviceNamesGrow(name);
      hide Harmless, WindowsDeviceName, EncodeRunes, ValidUtf8, RuneLen;
      UnescapedHasNoPercent(name, name == "." || name == "..");
    }
  }

  // ----- shortening ---------------------------------------------------------------------------

  predicate RuneStart(c: char) { !Continuation(c) }

  function BackToRune(s: string, end: nat): (r: nat)
    requires end < |s|
    ensures r <= end && (r > 0 ==> RuneStart(s[r]))
  {
    if end > 0 && !RuneStart(s[end]) then BackToRune(s, end - 1) else end
  }

  /** strings.LastIndexByte(s, '%'). */
  function LastPercent(s: string): (r: int)
    ensures -1 <= r < |s| && (0 <= r ==> s[r] == '%')
    ensures forall i | r < i < |s| :: s[i] != '%'
  {
    if s == [] then -1 else if s[|s| - 1] == '%' then |s| - 1 else LastPercent(s[..|s| - 1])
  }

  function CutPoint(s: string, limit: nat): (r: nat)
    requires 17 <= limit < |s|
    ensures r <= limit - 17
  {
    var end := BackToRune(s, limit - 17);
    var i := LastPercent(s[..end]);
    if i >= 0 && end - i < 3 then i else end
  }

  /** `tag` is the hexadecimal form of eight digest bytes of the whole name. */
  function Shortened(name: string, limit: nat, tag: string): string
    requires 17 <= limit
  {
    if |name| <= limit then name else name[..CutPoint(name, limit)] + "-" + tag
  }

  method Shorten(name: string, limit: nat, tag: string) returns (r: string)
    requires 17 <= limit
    ensures r == Shortened(name, limit, tag)
  {
    if |name| <= limit { return name; }
    var end := limit - 17;
    while end > 0 && !RuneStart(name[end])
      invariant 0 <= end <= limit - 17 && BackToRune(name, end) == BackToRune(name, limit - 17)
    {
      end := end - 1;
    }
    var i := LastPercent(name[..end]);
    if i >= 0 && end - i < 3 { end := i; }
    r := name[..end] + "-" + tag;
  }

  /** Cutting before the first byte of a rune leaves whole runes. */
  lemma {:induction false} CutAtRune(s: string, k: nat)
    requires ValidUtf8(s) && k <= |s| && (0 < k < |s| ==> RuneStart(s[k]))
    ensures ValidUtf8(s[..k])
    decreases |s|
  {
    if k > 0 {
      var n := RuneLen(s);
      assert forall i | 0 < i < n :: Continuation(s[i]);
      assert RuneLen(s[..k]) == n;
      assert s[..k][n..] == s[n..][..k - n];
      if k < |s| { assert s[n..][k - n] == s[k]; }
      hide RuneLen, RuneStart;
      CutAtRune(s[n..], k - n);
    }
  }

  /** Two percent signs of a well-escaped string never share an escape. */
  lemma {:induction false} EscapesApart(s: string, j: nat, i: nat)
    requires Unescape(s).Some? && j < i < |s| && s[j] == '%' && s[i] == '%'
    ensures i - j >= 3
  {
    if s[0] != '%' {
      EscapesApart(s[1..], j - 1, i - 1);
    } else if j > 0 {
      EscapesApart(s[3..], j - 3, i - 3);
    }
  }

  /** Decoding begins with the first character, or the first escape. */
  lemma UnescapeStep(s: string)
    requires s != [] && Unescape(s).Some?
    ensures var step := if s[0] == '%' then 3 else 1;
            && step <= |s| && Unescape(s[step..]).Some?
            && Unescape(s[..step]).Some? && |Unescape(s[..step]).value| == 1
            && Unescape(s).value == [Unescape(s[..step]).value[0]] + Unescape(s[step..]).value
  {
    var step := if s[0] == '%' then 3 else 1;
    assert s[..step][step..] == [];
    assert Unescape([]) == Some([]);
  }

  lemma UnescapeFront(s: string, k: nat)
    requires s != [] && k <= |s| && (if s[0] == '%' then 3 else 1) <= k
    ensures var step := if s[0] == '%' then 3 else 1;
            && s[..k][step..] == s[step..][..k - step] && s[..k][..step] == s[..step] && s[..k][0] == s[0]
            && (Unescape(s[..step]).Some? && |Unescape(s[..step]).value| == 1
                && Unescape(s[step..][..k - step]).Some? ==>
                && Unescape(s[..k]).Some?
                && Unescape(s[..k]).value == [Unescape(s[..step]).value[0]] + Unescape(s[step..][..k - step]).value)
  {
    var step := if s[0] == '%' then 3 else 1;
    assert s[..k][step..] == s[step..][..k - step];
    assert s[..step][step..] == [];
    assert Unescape([]) == Some([]);
    assert s[..k][0] == s[0] && (step == 3 ==> s[..k][1] == s[1] && s[..k][2] == s[2]);
  }

  /** Cutting outside every escape leaves a string that decodes to a prefix of the whole. */
  lemma {:induction false} CutOutsideEscapes(s: string, k: nat)
    requires Unescape(s).Some? && k <= |s|
    requires forall j | 0 <= j < k && s[j] == '%' :: k - j >= 3
    ensures Unescape(s[..k]).Some? && Unescape(s[..k]).value <= Unescape(s).value
    decreases |s|
  {
    if k == 0 {
      assert s[..k] == [] && Unescape([]) == Some([]);
    } else {
      hide Unescape;
      var step := if s[0] == '%' then 3 else 1;
      UnescapeStep(s);
      UnescapeFront(s, k);
      assert forall j | 0 <= j < k - step :: s[step..][j] == s[step + j];
      CutOutsideEscapes(s[step..], k - step);
    }
  }

  /** shorten keeps within its limit and splits neither a rune nor an escape: what is kept of a well-escaped
      valid string is itself valid and decodes to a prefix of the original name. */
  lemma ShortenSplitsNothing(name: string, limit: nat, tag: string)
    requires 17 <= limit && |tag| == 16 && ValidUtf8(name) && Unescape(name).Some?
    ensures |Shortened(name, limit, tag)| <= limit
    ensures |name| > limit ==>
              var kept := name[..CutPoint(name, limit)];
              && Shortened(name, limit, tag) == kept + "-" + tag && ValidUtf8(kept)
              && Unescape(kept).Some? && Unescape(kept).value <= Unescape(name).value
  {
    if |name| > limit {
      var end := BackToRune(name, limit - 17);
      var i := LastPercent(name[..end]);
      var k := CutPoint(name, limit);
      assert 0 < k ==> RuneStart(name[k]) by { assert k == i ==> name[k] == '%'; }
      CutAtRune(name, k);
      forall j | 0 <= j < k && name[j] == '%' ensures k - j >= 3 {
        assert name[..end][j] == '%';
        if k == i && 0 <= i { EscapesApart(name, j, i); } else if j < i { EscapesApart(name, j, i); }
      }
      CutOutsideEscapes(name, k);
    }
  }

  lemma {:induction false} BackToRuneSkips(s: string, end: nat)
    requires end < |s|
    ensures forall k | BackToRune(s, end) < k <= end :: !RuneStart(s[k])
    decreases end
  {
    if end > 0 && !RuneStart(s[end]) { BackToRuneSkips(s, end - 1); }
  }

  /** shorten keeps as much as it can: any later cut within the limit would split a rune or an escape. */
  lemma ShortenKeepsAll(name: string, limit: nat)
    requires 17 <= limit < |name|
    ensures forall k | CutPoint(name, limit) < k <= limit - 17 ::
              !RuneStart(name[k]) || exists j | 0 <= j < k :: k - j < 3 && name[j] == '%'
  {
    var end := BackToRune(name, limit - 17);
    BackToRuneSkips(name, limit - 17);
    hide RuneStart;
    forall k | CutPoint(name, limit) < k <= limit - 17
      ensures !RuneStart(name[k]) || exists j | 0 <= j < k :: k - j < 3 && name[j] == '%'
    {
      if k <= end {
        var i := LastPercent(name[..end]);
        assert name[i] == name[..end][i] == '%' && k - i < 3;
      }
    }
  }

  // ----- catalog labels -----------------------------------------------------------------------

  predicate IsHex(c: char) { '0' <= c <= '9' || 'a' <= c <= 'f' || 'A' <= c <= 'F' }

  predicate ValidID(id: string) {
    |id| == 36 && forall i | 0 <= i < 36 ::
      if i == 8 || i == 13 || i == 18 || i == 23 then id[i] == '-' else IsHex(id[i])
  }

  const LABEL_BYTES := 220

  /** Two names belong to the filesystem itself. */
  function Protected(encoded: string): string {
    if encoded == ".fabric.json" || encoded == ".platform" then "%2E" + encoded[1..] else encoded
  }

  function FullName(displayName: string): (r: string)
    requires IsBytes(displayName)
    ensures r != "" && IsBytes(r)
  {
    if displayName == "" then "unnamed" else displayName
  }

  /** `tag` stands for the digest: it turns the encoded label into sixteen hexadecimal digits. */
  function CatalogName(displayName: string, id: string, tag: string -> string): Result<string, NameError>
    requires IsBytes(displayName)
  {
    if !ValidID(id) then Err(Invalid)
    else
      var encoded := Encode(FullName(displayName));
      if encoded.Err? then encoded
      else
        var e := Protected(encoded.value);
        Ok(Shortened(e, LABEL_BYTES, tag(e)))
  }

  ghost predicate IsTag(tag: string -> string) {
    forall s :: |tag(s)| == 16 && forall i | 0 <= i < 16 :: IsHex(tag(s)[i])
  }

  lemma {:induction false} HarmlessHasNoSeparator(s: string)
    requires Harmless(s)
    ensures ValidUtf8(s) && (0 as char) !in s && '/' !in s && '\\' !in s
    decreases |s|
  {
    if s != [] {
      var n := RuneLen(s);
      HarmlessHasNoSeparator(s[n..]);
      assert s == s[..n] + s[n..];
    }
  }

  predicate IsSeparator(c: char) { c == 0 as char || c == '/' || c == '\\' }

  lemma ProtectedLabelIsClean(encoded: string, c: char)
    requires encoded != "" && IsSeparator(c) && c !in encoded
    ensures Protected(encoded) != "" && c !in Protected(encoded)
  {
  }

  lemma EncodedNamesAreClean(name: string)
    requires IsBytes(name) && Encode(name).Ok?
    ensures var e := Encode(name).value; e != "" && (0 as char) !in e && '/' !in e && '\\' !in e
  {
    EncodedNamesAreSafe(name);
    HarmlessHasNoSeparator(Encode(name).value);
  }

  lemma CatalogNameForm(displayName: string, id: string, tag: string -> string)
    requires IsBytes(displayName) && CatalogName(displayName, id, tag).Ok?
    ensures var full := FullName(displayName);
            && IsBytes(full) && Encode(full).Ok?
            && var e := Protected(Encode(full).value);
               CatalogName(displayName, id, tag).value == Shortened(e, LABEL_BYTES, tag(e))
  {
  }

  /** A catalog label is never empty, never longer than its budget, and free of NUL and of path separators. */
  lemma CatalogNamesAreBounded(displayName: string, id: string, tag: string -> string)
    requires IsBytes(displayName) && IsTag(tag) && CatalogName(displayName, id, tag).Ok?
    ensures var name := CatalogName(displayName, id, tag).value;
            name != "" && |name| <= LABEL_BYTES && forall c | IsSeparator(c) :: c !in name
  {
    CatalogNameForm(displayName, id, tag);
    hide CatalogName, Encode, Harmless, Component, WindowsDeviceName, Protected, Shortened, IsBytes, ValidUtf8,
         DotOrSpace;
    var full := FullName(displayName);
    EncodedNamesAreClean(full);
    var encoded := Encode(full).value;
    var e := Protected(encoded);
    forall c | IsSeparator(c) ensures e != "" && c !in Shortened(e, LABEL_BYTES, tag(e)) {
      ProtectedLabelIsClean(encoded, c);
      ShortenKeepsOut(e, LABEL_BYTES, tag(e), c);
    }
    ProtectedLabelIsClean(encoded, '/');
    ShortenKeepsOut(e, LABEL_BYTES, tag(e), '/');
  }

  lemma ShortenKeepsOut(name: string, limit: nat, tag: string, c: char)
    requires 17 <= limit && c !in name && |tag| == 16 && (forall i | 0 <= i < 16 :: IsHex(tag[i])) && !IsHex(c)
             && c != '-'
    ensures c !in Shortened(name, limit, tag) && |Shortened(name, limit, tag)| <= limit
    ensures name != "" ==> Shortened(name, limit, tag) != ""
  {
  }

  lemma {:induction false} AsciiIsValid(s: string)
    requires forall i | 0 <= i < |s| :: s[i] as int < 0x80
    ensures ValidUtf8(s)
  {
    if s != [] { AsciiIsValid(s[1..]); }
  }

  lemma DotDecodes(t: string)
    requires '%' !in t
    ensures Unescape("%2E" + t) == Some("." + t) && Unescape("." + t) == Some("." + t)
  {
    assert Unescape([]) == Some([]);
    PlainDecodes(t, []);
    assert t + [] == t;
    PercentDecodes('.', t);
    PlainDecodes(".", t);
    assert "%2E" + t == Percent('.') + t;
  }

  lemma ProtectedForm(encoded: string)
    ensures Protected(encoded) == encoded
         || (encoded != [] && encoded[0] == '.' && '%' !in encoded && Protected(encoded) == "%2E" + encoded[1..]
             && forall i | 0 <= i < |Protected(encoded)| :: Protected(encoded)[i] as int < 0x80)
  {
  }

  lemma ProtectedDecodes(encoded: string)
    requires ValidUtf8(encoded)
    ensures ValidUtf8(Protected(encoded)) && Unescape(Protected(encoded)) == Unescape(encoded)
  {
    hide *;
    ProtectedForm(encoded);
    if Protected(encoded) != encoded {
      AsciiIsValid(Protected(encoded));
      DotDecodes(encoded[1..]);
      assert encoded == "." + encoded[1..];
    }
  }

  lemma EncodedIsValid(name: string)
    requires IsBytes(name) && Encode(name).Ok?
    ensures ValidUtf8(Encode(name).value)
  {
    EncodedNamesAreSafe(name);
    HarmlessHasNoSeparator(Encode(name).value);
  }

  /** A label that leads back to a prefix of the name only: valid text, then the digest. */
  ghost predicate CutShort(short: string, full: string, digest: string) {
    && |short| >= 17
    && var kept := short[..|short| - 17];
       short == kept + "-" + digest && ValidUtf8(kept) && Unescape(kept).Some? && Unescape(kept).value <= full
  }

  lemma ShortenedLeadsBack(e: string, full: string, digest: string)
    requires |digest| == 16 && ValidUtf8(e) && Unescape(e) == Some(full)
    ensures |e| <= LABEL_BYTES ==> Unescape(Shortened(e, LABEL_BYTES, digest)) == Some(full)
    ensures |e| > LABEL_BYTES ==> CutShort(Shortened(e, LABEL_BYTES, digest), full, digest)
  {
    hide Unescape, ValidUtf8, CutPoint;
    ShortenSplitsNothing(e, LABEL_BYTES, digest);
    if |e| > LABEL_BYTES {
      var kept, short := e[..CutPoint(e, LABEL_BYTES)], Shortened(e, LABEL_BYTES, digest);
      assert |short| == |kept| + 17 && short[..|kept|] == kept;
    }
  }

  /** A catalog label leads back to its display name: it decodes to the whole name, or, when the encoding had to be
      shortened, what stands before its digest decodes to a prefix of the name. */
  lemma LabelsLeadBack(displayName: string, id: string, tag: string -> string)
    requires IsBytes(displayName) && IsTag(tag) && CatalogName(displayName, id, tag).Ok?
    ensures var full, short := FullName(displayName), CatalogName(displayName, id, tag).value;
            && Encode(full).Ok?
            && var e := Protected(Encode(full).value);
               if |e| <= LABEL_BYTES then Unescape(short) == Some(full) else CutShort(short, full, tag(e))
  {
    CatalogNameForm(displayName, id, tag);
    assert forall s :: |tag(s)| == 16;
    hide *;
    var full := FullName(displayName);
    var encoded := Encode(full).value;
    EncodedIsValid(full);
    EncodeDecodes(full);
    ProtectedDecodes(encoded);
    ShortenedLeadsBack(Protected(encoded), full, tag(Protected(encoded)));
  }
}
