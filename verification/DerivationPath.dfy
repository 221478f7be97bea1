/** Derivation paths of hierarchical deterministic wallets (BIP-32, BIP-44), as text and as numbers. */
module DerivationPath {
  import opened Base

  const HARDENED: nat := 0x8000_0000
  const MAX_UINT32: nat := 0xFFFF_FFFF

  type Uint32 = x: nat | x <= MAX_UINT32

  type Path = seq<Uint32>

  const DEFAULT_ROOT: Path := [HARDENED + 44, HARDENED + 60, HARDENED, 0]

  datatype Error = Ambiguous | Empty | Invalid | OutOfRange

  datatype Result = Ok(path: Path) | Err(error: Error)

  // ---------- Text ----------

  /** unicode.IsSpace. */
  predicate IsSpace(c: char) {
    || '\t' <= c <= '\r' || c == ' ' || c == '\U{85}' || c == '\U{A0}' || c == '\U{1680}'
    || '\U{2000}' <= c <= '\U{200A}' || c == '\U{2028}' || c == '\U{2029}' || c == '\U{202F}' || c == '\U{205F}'
        || c == '\U{3000}'
  }

  /** strings.TrimSpace. */
  function TrimSpace(s: string): (r: string) {
    if s == [] then []
    else if IsSpace(s[0]) then TrimSpace(s[1..])
    else if IsSpace(s[|s| - 1]) then TrimSpace(s[..|s| - 1])
    else s
  }

  /** strings.Split at slashes. */
  function Split(s: string): (r: seq<string>)
    ensures r != []
  {
    var i := FirstIndex(s, '/');
    if i < 0 then [s] else [s[..i]] + Split(s[i + 1..])
  }

  /** Letters count as digits from ten up; a digit is good in a base when it is less than the base. */
  function DigitOf(c: char): (d: nat) {
    if '0' <= c <= '9' then (c - '0') as nat
    else if 'a' <= c <= 'z' then (c - 'a') as nat + 10
    else if 'A' <= c <= 'Z' then (c - 'A') as nat + 10
    else 99
  }

  function Number(s: string, base: nat): (r: Option<int>)
    requires base <= 16
  {
    if s == [] then None
    else if DigitOf(s[|s| - 1]) >= base then None
    else if |s| == 1 then Some(DigitOf(s[0]) as int)
    else
      var high := Number(s[..|s| - 1], base);
      if high.None? then None else Some(high.value * base + DigitOf(s[|s| - 1]))
  }

  /** big.Int.SetString in base 0: a sign, then a prefix that gives the base. */
  function SetString(s: string): (r: Option<int>) {
    if s == [] then None else
      var unsigned := if s[0] == '+' || s[0] == '-' then s[1..] else s;
      var v := Magnitude(unsigned);
      if v.None? then None else
        Some(if s[0] == '-' then -v.value else v.value)
  }

  function Magnitude(s: string): (r: Option<int>) {
    if s == [] then None
    else if s[0] != '0' then Number(s, 10)
    else if |s| == 1 then Some(0)
    else if s[1] == 'x' || s[1] == 'X' then Number(s[2..], 16)
    else if s[1] == 'b' || s[1] == 'B' then Number(s[2..], 2)
    else Number(s[1..], 8)
  }

  // ---------- Parsing ----------

  /** One component: a number, hardened when a quote follows. */
  function Component(text: string): (r: Result) {
    var c := TrimSpace(text);
    var hardened := c != [] && c[|c| - 1] == '\'';
    var v := SetString(if hardened then TrimSpace(c[..|c| - 1]) else c);
    var offset := if hardened then HARDENED else 0;
    if v.None? then Err(Invalid)
    else if v.value < 0 || v.value > MAX_UINT32 - offset then Err(OutOfRange)
    else Ok([offset + v.value])
  }

  /** The components in order after `done`, or the first error. */
  function Components(done: Path, texts: seq<string>): (r: Result)
    decreases |texts|
  {
    if texts == [] then Ok(done) else
      var first := Component(texts[0]);
      if first.Err? then first else Components(done + first.path, texts[1..])
  }

  function Parse(text: string): (r: Result) {
    var parts := Split(text);
    var first := TrimSpace(parts[0]);
    if first == [] then Err(Ambiguous)
    else if first != "m" then Components(DEFAULT_ROOT, parts)
    else if |parts| == 1 then Err(Empty)
    else Components([], parts[1..])
  }

  /** The body of ParseDerivationPath's loop. */
  method ReadComponent(part: string) returns (r: Result)
    ensures r == Component(part)
  {
    hide TrimSpace, SetString;
    var value, text := 0, TrimSpace(part);
    if text != [] && text[|text| - 1] == '\'' {
      value, text := HARDENED, TrimSpace(text[..|text| - 1]);
    }
    var number := SetString(text);
    if number.None? {
      return Err(Invalid);
    }
    if number.value < 0 || number.value > MAX_UINT32 - value {
      return Err(OutOfRange);
    }
    r := Ok([value + number.value]);
  }

  method ParseDerivationPath(text: string) returns (r: Result)
    ensures r == Parse(text)
  {
    hide TrimSpace, Component, Split;
    var parts, done: Path := Split(text), [];
    var first := TrimSpace(parts[0]);
    if first == [] {
      return Err(Ambiguous);
    } else if first == "m" {
      parts := parts[1..];
    } else {
      done := DEFAULT_ROOT;
    }
    if parts == [] {
      return Err(Empty);
    }
    var i := 0;
    assert parts[0..] == parts;
    while i < |parts|
      invariant 0 <= i <= |parts|
      invariant Parse(text) == Components(done, parts[i..])
    {
      hide Parse;
      assert parts[i..][1..] == parts[i + 1..];
      var one := ReadComponent(parts[i]);
      if one.Err? {
        return one;
      }
      done := done + one.path;
      i := i + 1;
    }
    r := Ok(done);
  }

  // ---------- Printing ----------

  /** A number in decimal, as %d prints it. */
  function Decimal(n: nat): (s: string)
    ensures s != []
  {
    var digit := '0' + (n % 10) as char;
    if n < 10 then [digit] else Decimal(n / 10) + [digit]
  }

  function PrintComponent(c: Uint32): (s: string) {
    if c >= HARDENED then Decimal(c - HARDENED) + "'" else Decimal(c)
  }

  function PrintTail(path: Path): (s: string) {
    if path == [] then "" else "/" + PrintComponent(path[0]) + PrintTail(path[1..])
  }

  function Print(path: Path): (s: string) { "m" + PrintTail(path) }

  method String(path: Path) returns (s: string)
    ensures s == Print(path)
  {
    s := "m";
    var i := 0;
    while i < |path|
      invariant 0 <= i <= |path|
      invariant s + PrintTail(path[i..]) == Print(path)
    {
      var component, hardened := path[i], false;
      if component >= HARDENED {
        component, hardened := component - HARDENED, true;
      }
      ghost var before := s;
      hide Decimal;
      var text := "/" + Decimal(component);
      if hardened {
        text := text + "'";
      }
      assert text == "/" + PrintComponent(path[i]);
      s := s + text;
      PrintTailStep(before, path, i);
      i := i + 1;
    }
  }

  lemma PrintTailStep(before: string, path: Path, i: nat)
    requires i < |path|
    ensures before + PrintTail(path[i..]) == before + ("/" + PrintComponent(path[i])) + PrintTail(path[i + 1..])
  {
    hide PrintComponent;
    assert path[i..][1..] == path[i + 1..];
  }

  // ---------- Round trip ----------

  predicate IsDigit(c: char) { '0' <= c <= '9' }

  lemma {:induction false} DecimalReads(n: nat)
    ensures forall i :: 0 <= i < |Decimal(n)| ==> IsDigit(Decimal(n)[i])
    ensures Number(Decimal(n), 10) == Some(n)
    ensures Decimal(n)[0] == '0' ==> n == 0
  {
    var s := Decimal(n);
    if n >= 10 {
      DecimalReads(n / 10);
      assert s[..|s| - 1] == Decimal(n / 10) && s[0] == Decimal(n / 10)[0];
    }
  }

  lemma DecimalParses(n: nat)
    ensures SetString(Decimal(n)) == Some(n)
  {
    DecimalReads(n);
    assert IsDigit(Decimal(n)[0]);
  }

  /** A text that begins and ends with no space is its own trimming. */
  lemma TrimIdle(s: string)
    requires s != [] && !IsSpace(s[0]) && !IsSpace(s[|s| - 1])
    ensures TrimSpace(s) == s
  {
  }

  lemma ComponentReads(c: Uint32)
    ensures Component(PrintComponent(c)) == Ok([c])
    ensures '/' !in PrintComponent(c)
  {
    var n := if c >= HARDENED then c - HARDENED else c;
    var d, s := Decimal(n), PrintComponent(c);
    DecimalReads(n);
    DecimalParses(n);
    assert IsDigit(d[0]) && IsDigit(d[|d| - 1]) && s[0] == d[0];
    TrimIdle(d);
    TrimIdle(s);
    if c >= HARDENED {
      assert s[|s| - 1] == '\'' && s[..|s| - 1] == d;
    }
  }

  function Texts(path: Path): (r: seq<string>)
    ensures |r| == |path|
  {
    if path == [] then [] else [PrintComponent(path[0])] + Texts(path[1..])
  }

  lemma {:induction false} SplitPrinted(head: string, path: Path)
    requires '/' !in head
    ensures Split(head + PrintTail(path)) == [head] + Texts(path)
    decreases |path|
  {
    hide *;
    if path == [] {
      SplitWhole(head);
    } else {
      var next, rest := PrintComponent(path[0]), PrintTail(path[1..]);
      ComponentReads(path[0]);
      SplitPrinted(next, path[1..]);
      SplitFirst(head, next + rest);
      PrintedUnfolds(head, path);
    }
  }

  lemma SplitWhole(head: string)
    requires '/' !in head
    ensures Split(head + PrintTail([])) == [head] + Texts([])
  {
    assert head + PrintTail([]) == head && Texts([]) == [];
  }

  lemma PrintedUnfolds(head: string, path: Path)
    requires path != []
    ensures head + PrintTail(path) == head + "/" + (PrintComponent(path[0]) + PrintTail(path[1..]))
    ensures [head] + Texts(path) == [head] + ([PrintComponent(path[0])] + Texts(path[1..]))
  {
    hide PrintComponent;
  }

  lemma SplitFirst(head: string, rest: string)
    requires '/' !in head
    ensures Split(head + "/" + rest) == [head] + Split(rest)
  {
    var s := head + "/" + rest;
    assert s[..|head|] == head && s[|head| + 1..] == rest;
    FirstIndexUnique(s, '/', |head|);
    hide FirstIndex;
  }

  lemma {:induction false} ComponentsRead(done: Path, path: Path)
    ensures Components(done, Texts(path)) == Ok(done + path)
    decreases |path|
  {
    if path == [] {
      assert done + path == done;
    } else {
      hide *;
      ComponentsRead(done + [path[0]], path[1..]);
      ComponentsStep(done, path);
      assert done + [path[0]] + path[1..] == done + path;
    }
  }

  lemma ComponentsStep(done: Path, path: Path)
    requires path != []
    ensures Components(done, Texts(path)) == Components(done + [path[0]], Texts(path[1..]))
  {
    ComponentReads(path[0]);
    hide Component, PrintComponent;
    assert Texts(path)[1..] == Texts(path[1..]);
  }

  lemma ParseAbsolute(text: string, rest: seq<string>)
    requires Split(text) == ["m"] + rest
    ensures Parse(text) == if rest == [] then Err(Empty) else Components([], rest)
  {
    TrimIdle("m");
    hide Components, Split, TrimSpace;
    assert Split(text)[0] == "m" && Split(text)[1..] == rest;
  }

  /** Every path but the empty one, hardened or not in any place, reads back as it was printed. */
  lemma RoundTrip(path: Path)
    ensures Parse(Print(path)) == if path == [] then Err(Empty) else Ok(path)
  {
    assert Print(path) == "m" + PrintTail(path) && |Texts(path)| == |path|;
    hide *;
    SplitPrinted("m", path);
    ParseAbsolute(Print(path), Texts(path));
    ComponentsRead([], path);
    assert [] + path == path;
  }

  /** Printing what was read and reading it again changes nothing, whatever the spelling was. */
  lemma Canonical(text: string)
    requires Parse(text).Ok?
    ensures Parse(text).path != [] && Parse(Print(Parse(text).path)) == Parse(text)
  {
    var parts := Split(text);
    if TrimSpace(parts[0]) == "m" {
      ComponentsGrow([], parts[1..]);
    } else {
      ComponentsGrow(DEFAULT_ROOT, parts);
    }
    RoundTrip(Parse(text).path);
  }

  // ---------- Other spellings ----------

  /** A text is a number in a base exactly if it has digits and they are all good in that base. */
  lemma {:induction false} NumberIff(s: string, base: nat)
    requires base <= 16
    ensures Number(s, base).Some? <==> s != [] && forall i :: 0 <= i < |s| ==> DigitOf(s[i]) < base
  {
    if |s| > 1 {
      NumberIff(s[..|s| - 1], base);
    }
  }

  /** What precedes the digits, and the base it announces. */
  datatype Radix = Radix(prefix: string, base: nat)

  predicate IsRadix(r: Radix) {
    match r.base
    case 10 => r.prefix == ""
    case 16 => r.prefix == "0x" || r.prefix == "0X"
    case 8 => r.prefix == "0"
    case 2 => r.prefix == "0b" || r.prefix == "0B"
    case _ => false
  }

  function DigitChar(d: nat, upper: bool): (c: char)
    requires d < 16
  {
    if d < 10 then '0' + d as char else (if upper then 'A' else 'a') + (d - 10) as char
  }

  function Digits(n: nat, base: nat, upper: bool): (s: string)
    requires 2 <= base <= 16
    ensures s != []
  {
    var digit := DigitChar(n % base, upper);
    if n < base then [digit] else Digits(n / base, base, upper) + [digit]
  }

  lemma DigitReads(d: nat, upper: bool)
    requires d < 16
    ensures var c := DigitChar(d, upper);
            DigitOf(c) == d && !IsSpace(c) && c != '\'' && c != '/' && c != 'm' && c != '+' && c != '-'
    ensures d < 8 ==> DigitChar(d, upper) !in "xXbB"
    ensures DigitChar(d, upper) == '0' ==> d == 0
  {
  }

  lemma NumberSnoc(s: string, c: char, base: nat, v: int)
    requires base <= 16 && Number(s, base) == Some(v) && DigitOf(c) < base
    ensures Number(s + [c], base) == Some(v * base + DigitOf(c))
  {
    var t := s + [c];
    assert t[..|t| - 1] == s && t[|t| - 1] == c;
    hide DigitOf;
  }

  lemma NumberOne(c: char, base: nat)
    requires base <= 16 && DigitOf(c) < base
    ensures Number([c], base) == Some(DigitOf(c))
  {
    hide DigitOf;
  }

  lemma Division(n: nat, base: nat) returns (q: nat, d: nat)
    requires base >= 2
    ensures q == n / base && d == n % base < base && q * base + d == n && (n >= base ==> 0 < q < n)
  {
    q, d := n / base, n % base;
  }

  lemma {:induction false} DigitsRead(n: nat, base: nat, upper: bool)
    requires 2 <= base <= 16
    ensures Number(Digits(n, base, upper), base) == Some(n)
  {
    hide *;
    DigitsSnoc(n, base, upper);
    var q, d := Division(n, base);
    if n < base {
      DigitReads(n, upper);
      NumberOne(DigitChar(n, upper), base);
    } else {
      DigitReads(d, upper);
      DigitsRead(q, base, upper);
      NumberSnoc(Digits(q, base, upper), DigitChar(d, upper), base, q);
    }
  }

  lemma DigitsSnoc(n: nat, base: nat, upper: bool)
    requires 2 <= base <= 16
    ensures n < base ==> Digits(n, base, upper) == [DigitChar(n, upper)]
    ensures n >= base ==> Digits(n, base, upper) == Digits(n / base, base, upper) + [DigitChar(n % base, upper)]
  {
    hide DigitChar;
  }

  /** Digits begin with no sign, end with no quote, and begin with zero only for zero itself. */
  lemma {:induction false} DigitsShape(n: nat, base: nat, upper: bool)
    requires 2 <= base <= 16
    ensures var s := Digits(n, base, upper);
            && (s[0] == '0' ==> n == 0 && |s| == 1) && (base <= 8 ==> s[0] !in "xXbB")
            && s[0] != '+' && s[0] != '-'
            && !IsSpace(s[0]) && !IsSpace(s[|s| - 1]) && s[|s| - 1] != '\''
  {
    hide *;
    DigitReads(n % base, upper);
    DigitsSnoc(n, base, upper);
    if n < base {
      DigitReads(n, upper);
    } else {
      var q, _ := Division(n, base);
      DigitsShape(q, base, upper);
    }
  }

  lemma MagnitudeReads(n: nat, r: Radix, upper: bool)
    requires IsRadix(r)
    ensures Magnitude(r.prefix + Digits(n, r.base, upper)) == Some(n)
  {
    var d := Digits(n, r.base, upper);
    DigitsRead(n, r.base, upper);
    DigitsShape(n, r.base, upper);
    hide Digits, DigitOf, IsSpace, Number;
    var s := r.prefix + d;
    if r.base == 10 {
      assert s == d;
    } else if r.base == 8 {
      assert s[1..] == d && s[1] == d[0];
    } else {
      assert s[2..] == d;
    }
  }

  /** A number without its sign, however it is spelled. */
  function Spelled(n: nat, r: Radix, upper: bool): (s: string)
    requires IsRadix(r)
  {
    r.prefix + Digits(n, r.base, upper)
  }

  /** It begins with a digit, and ends with neither a blank nor a quote. */
  lemma SpelledShape(n: nat, r: Radix, upper: bool)
    requires IsRadix(r)
    ensures var s := Spelled(n, r, upper);
            && s != [] && s[0] != '+' && s[0] != '-' && !IsSpace(s[0])
            && !IsSpace(s[|s| - 1]) && s[|s| - 1] != '\''
  {
    DigitsShape(n, r.base, upper);
    hide Digits;
    assert !IsSpace('0');
    hide IsSpace;
    var s, d := Spelled(n, r, upper), Digits(n, r.base, upper);
    assert s[|s| - 1] == d[|d| - 1];
    if r.base == 10 {
      assert s == d;
    } else {
      assert s[0] == '0';
    }
  }

  lemma SpelledReads(n: nat, r: Radix, upper: bool, sign: string)
    requires IsRadix(r) && sign in {"", "+", "-"}
    ensures var s := sign + Spelled(n, r, upper);
            && SetString(s) == Some(if sign == "-" then 0 - n else n as int)
            && s != [] && !IsSpace(s[0]) && !IsSpace(s[|s| - 1]) && s[|s| - 1] != '\''
  {
    assert Spelled(n, r, upper) == r.prefix + Digits(n, r.base, upper);
    hide *;
    SpelledShape(n, r, upper);
    MagnitudeReads(n, r, upper);
    SignReads(Spelled(n, r, upper), n, sign);
  }

  lemma SignReads(u: string, n: nat, sign: string)
    requires u != [] && u[0] != '+' && u[0] != '-' && !IsSpace(u[0]) && Magnitude(u) == Some(n)
    requires sign in {"", "+", "-"}
    ensures var s := sign + u;
            && s != [] && !IsSpace(s[0]) && s[|s| - 1] == u[|u| - 1]
            && SetString(s) == Some(if sign == "-" then 0 - n else n as int)
  {
    var s := sign + u;
    assert !IsSpace('+') && !IsSpace('-');
    hide Magnitude, IsSpace;
    if sign == "" {
      assert s == u;
    } else {
      assert s[1..] == u;
    }
  }

  ghost predicate Blank(s: string) {
    forall i :: 0 <= i < |s| ==> IsSpace(s[i])
  }

  lemma {:induction false} TrimAround(before: string, s: string, after: string)
    requires Blank(before) && Blank(after) && s != [] && !IsSpace(s[0]) && !IsSpace(s[|s| - 1])
    ensures TrimSpace(before + s + after) == s
    decreases |before| + |after|
  {
    hide IsSpace;
    var t := before + s + after;
    if before != [] {
      assert t[1..] == before[1..] + s + after;
      TrimAround(before[1..], s, after);
    } else if after != [] {
      assert t[0] == s[0] && t[|t| - 1] == after[|after| - 1];
      assert t[..|t| - 1] == before + s + after[..|after| - 1];
      TrimAround(before, s, after[..|after| - 1]);
    } else {
      assert t == s;
    }
  }

  /** A component reads as its number in whatever base, case and blanks it is written, with or without a sign,
      and is out of range exactly if it is negative or does not fit under the hardening bit. */
  lemma ComponentSpelled(n: nat, r: Radix, upper: bool, sign: string, hardened: bool, before: string, between: string,
                         after: string)
    requires IsRadix(r) && sign in {"", "+", "-"} && Blank(before) && Blank(between) && Blank(after)
    ensures var text := before + (sign + Spelled(n, r, upper) + if hardened then between + "'" else "") + after;
            Component(text) ==
              if (sign == "-" && n > 0) || n > (if hardened then 0x7FFF_FFFF else 0xFFFF_FFFF) then Err(OutOfRange)
              else Ok([if hardened then 0x8000_0000 + n else n])
  {
    hide *;
    var s := sign + Spelled(n, r, upper);
    SpelledReads(n, r, upper, sign);
    if hardened {
      QuotedReads(s, before, between, after, if sign == "-" then 0 - n else n);
    } else {
      PlainReads(s, before, after, if sign == "-" then 0 - n else n);
      assert s + "" == s;
    }
  }

  lemma PlainReads(s: string, before: string, after: string, v: int)
    requires s != [] && !IsSpace(s[0]) && !IsSpace(s[|s| - 1]) && s[|s| - 1] != '\'' && SetString(s) == Some(v)
    requires Blank(before) && Blank(after)
    ensures Component(before + s + after) == if v < 0 || v > 0xFFFF_FFFF then Err(OutOfRange) else Ok([v])
  {
    hide TrimSpace, SetString, IsSpace, Blank;
    TrimAround(before, s, after);
  }

  lemma QuotedReads(s: string, before: string, between: string, after: string, v: int)
    requires s != [] && !IsSpace(s[0]) && !IsSpace(s[|s| - 1]) && SetString(s) == Some(v)
    requires Blank(before) && Blank(between) && Blank(after)
    ensures Component(before + (s + (between + "'")) + after) ==
              if v < 0 || v > 0x7FFF_FFFF then Err(OutOfRange) else Ok([0x8000_0000 + v])
  {
    hide *;
    var q := s + (between + "'");
    QuotedShape(s, between);
    TrimAround([], s, between);
    TrimAround(before, q, after);
    QuotedIs(before + q + after, q, s, v);
  }

  lemma QuotedShape(s: string, between: string)
    requires s != []
    ensures var q := s + (between + "'");
            q != [] && q[0] == s[0] && q[|q| - 1] == '\'' && q[..|q| - 1] == [] + s + between
    ensures Blank([]) && !IsSpace('\'')
  {
  }

  lemma QuotedIs(text: string, q: string, s: string, v: int)
    requires TrimSpace(text) == q && q != [] && q[|q| - 1] == '\'' && TrimSpace(q[..|q| - 1]) == s
    requires SetString(s) == Some(v)
    ensures Component(text) == if v < 0 || v > 0x7FFF_FFFF then Err(OutOfRange) else Ok([0x8000_0000 + v])
  {
    hide TrimSpace, SetString;
  }

  lemma {:induction false} ComponentsFrom(done: Path, texts: seq<string>)
    ensures var r := Components([], texts);
            Components(done, texts) == if r.Ok? then Ok(done + r.path) else r
    decreases |texts|
  {
    if texts == [] {
      assert done + [] == done;
    } else {
      var first := Component(texts[0]);
      hide Component;
      if first.Ok? {
        ComponentsFrom(done + first.path, texts[1..]);
        ComponentsFrom([] + first.path, texts[1..]);
        var r := Components([], texts[1..]);
        if r.Ok? {
          assert done + first.path + r.path == done + ([] + first.path + r.path);
        }
      }
    }
  }

  /** A relative path, one that starts with neither a blank component nor m, means the same as after m/, appended
      to the default root m/44'/60'/0'/0. */
  lemma RelativePath(text: string)
    requires TrimSpace(Split(text)[0]) != "" && TrimSpace(Split(text)[0]) != "m"
    ensures var absolute := Parse("m/" + text);
            Parse(text) ==
              if absolute.Ok? then Ok([0x8000_002C, 0x8000_003C, 0x8000_0000, 0] + absolute.path) else absolute
  {
    assert DEFAULT_ROOT == [0x8000_002C, 0x8000_003C, 0x8000_0000, 0];
    hide *;
    assert "m/" + text == "m" + "/" + text;
    SplitFirst("m", text);
    ParseAbsolute("m/" + text, Split(text));
    ComponentsFrom(DEFAULT_ROOT, Split(text));
    ParseRelative(text);
  }

  lemma {:induction false} TrimBlank(s: string)
    ensures TrimSpace(s) == "" <==> Blank(s)
    decreases |s|
  {
    hide IsSpace;
    if s != [] {
      if IsSpace(s[0]) {
        TrimBlank(s[1..]);
        assert Blank(s[1..]) ==> Blank(s) by {
          assert forall i :: 0 < i < |s| ==> s[i] == s[1..][i - 1];
        }
      } else if IsSpace(s[|s| - 1]) {
        TrimBlank(s[..|s| - 1]);
        assert !Blank(s);
      }
    }
  }

  lemma {:induction false} ComponentErrors(done: Path, texts: seq<string>)
    ensures Components(done, texts).Err? ==> Components(done, texts).error in {Invalid, OutOfRange}
    decreases |texts|
  {
    if texts != [] {
      var first := Component(texts[0]);
      if first.Ok? {
        ComponentErrors(done + first.path, texts[1..]);
      }
    }
  }

  /** A path is ambiguous exactly if it is blank before its first slash, and empty exactly if it is m alone. */
  lemma PathErrors(text: string)
    ensures Parse(text) == Err(Ambiguous) <==> Blank(Split(text)[0])
    ensures Parse(text) == Err(Empty) <==> |Split(text)| == 1 && TrimSpace(text) == "m"
  {
    TrimBlank(Split(text)[0]);
    ComponentErrors(DEFAULT_ROOT, Split(text));
    ComponentErrors([], Split(text)[1..]);
    OnePart(text);
    hide Components, TrimSpace, Blank, Split;
  }

  lemma OnePart(text: string)
    ensures |Split(text)| == 1 ==> Split(text)[0] == text
  {
    hide FirstIndex;
  }

  lemma ParseRelative(text: string)
    requires TrimSpace(Split(text)[0]) != "" && TrimSpace(Split(text)[0]) != "m"
    ensures Parse(text) == Components(DEFAULT_ROOT, Split(text))
  {
    hide Components, TrimSpace;
  }

  lemma {:induction false} ComponentsGrow(done: Path, texts: seq<string>)
    requires Components(done, texts).Ok?
    ensures |Components(done, texts).path| == |done| + |texts| && done <= Components(done, texts).path
    decreases |texts|
  {
    if texts != [] {
      ComponentsGrow(done + Component(texts[0]).path, texts[1..]);
    }
  }
}
