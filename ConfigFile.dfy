/** The line-oriented parser inside `loadConfigFromFile`: trimming, comments, `[section]`
    headers, `key=value` entries applied only in section `logger`, and the value
    conversions (`parseLogLevel`, the boolean words, `std::stoi`). The file is given as
    its sequence of lines. */
module ConfigFile {
  import opened Wrappers
  import opened Digits
  import opened LogTypes
  import opened LogText

  /** The characters the parser trims: space and tab. */
  predicate IsBlank(c: char) { c == ' ' || c == '\t' }

  predicate AllBlank(s: string) { forall i | 0 <= i < |s| :: IsBlank(s[i]) }

  /** A string with nothing to trim at either end. */
  predicate Trimmed(s: string) { s != [] ==> !IsBlank(s[0]) && !IsBlank(s[|s| - 1]) }

  /** `s.erase(0, s.find_first_not_of(" \t"))`. */
  function TrimLeft(s: string): (r: string)
    ensures |r| <= |s|
  {
    if s != [] && IsBlank(s[0]) then TrimLeft(s[1..]) else s
  }

  /** `s.erase(s.find_last_not_of(" \t") + 1)`. */
  function TrimRight(s: string): (r: string)
    ensures |r| <= |s|
  {
    if s != [] && IsBlank(s[|s| - 1]) then TrimRight(s[..|s| - 1]) else s
  }

  /** Left trimming removes a run of blanks from the front and stops at a non-blank. */
  lemma {:induction false} TrimLeftFacts(s: string)
    ensures var r := TrimLeft(s);
      r == s[|s| - |r|..] && AllBlank(s[..|s| - |r|]) && (r != [] ==> !IsBlank(r[0]))
  {
    if s != [] && IsBlank(s[0]) {
      TrimLeftFacts(s[1..]);
      var r := TrimLeft(s);
      var k := |s| - |r|;
      assert r == s[1..][|s| - 1 - |r|..];
      assert s[1..][|s| - 1 - |r|..] == s[k..];
      forall i | 0 <= i < k ensures IsBlank(s[..k][i]) {
        if i > 0 { assert s[..k][i] == s[1..][..k - 1][i - 1]; }
      }
    }
  }

  /** Right trimming removes a run of blanks from the back and stops at a non-blank. */
  lemma {:induction false} TrimRightFacts(s: string)
    ensures var r := TrimRight(s);
      r == s[..|r|] && AllBlank(s[|r|..]) && (r != [] ==> !IsBlank(r[|r| - 1]))
  {
    if s != [] && IsBlank(s[|s| - 1]) {
      var p := s[..|s| - 1];
      TrimRightFacts(p);
      var r := TrimRight(s);
      assert r == p[..|r|];
      assert p[..|r|] == s[..|r|];
      forall i | |r| <= i < |s| ensures IsBlank(s[i]) {
        if i < |s| - 1 { assert s[i] == p[|r|..][i - |r|]; }
      }
      assert forall i | 0 <= i < |s| - |r| :: s[|r|..][i] == s[|r| + i];
    }
  }

  function Trim(s: string): (r: string)
    ensures Trimmed(r) && |r| <= |s|
    ensures r == [] <==> AllBlank(s)
  {
    TrimBothEnds(s);
    TrimRight(TrimLeft(s))
  }

  /** The facts behind `Trim`'s contract, one trimming step after the other. */
  lemma TrimBothEnds(s: string)
    ensures var r := TrimRight(TrimLeft(s));
      Trimmed(r) && |r| <= |s| && (r == [] <==> AllBlank(s))
  {
    var l := TrimLeft(s);
    var r := TrimRight(l);
    TrimLeftEmpty(s);
    TrimRightEmpty(l);
    TrimLeftFacts(s);
    TrimRightFacts(l);
    if r != [] {
      assert r[0] == l[0];
    }
  }

  lemma TrimLeftEmpty(s: string)
    ensures TrimLeft(s) == [] <==> AllBlank(s)
  {
    TrimLeftFacts(s);
    var l := TrimLeft(s);
    if l == [] {
      assert s[..|s|] == s;
    } else {
      assert s[|s| - |l|] == l[0];
    }
  }

  lemma TrimRightEmpty(s: string)
    ensures TrimRight(s) == [] <==> AllBlank(s)
  {
    TrimRightFacts(s);
    var r := TrimRight(s);
    if r == [] {
      assert s[|r|..] == s;
    } else {
      assert s[|r| - 1] == r[|r| - 1];
    }
  }

  /** Trimming keeps a contiguous piece of the line. */
  lemma TrimIsInfix(s: string)
    ensures var k := |s| - |TrimLeft(s)|;
      k + |Trim(s)| <= |s| && Trim(s) == s[k..k + |Trim(s)|]
  {
    var l := TrimLeft(s);
    TrimLeftFacts(s);
    TrimRightFacts(l);
    var k := |s| - |l|;
    var r := TrimRight(l);
    assert l == s[k..];
    assert r == l[..|r|] == s[k..][..|r|];
  }

  lemma {:induction false} TrimLeftPadded(a: string, c: string)
    requires AllBlank(a) && (c != [] ==> !IsBlank(c[0]))
    ensures TrimLeft(a + c) == c
  {
    if a != [] {
      assert (a + c)[1..] == a[1..] + c;
      TrimLeftPadded(a[1..], c);
    }
  }

  lemma {:induction false} TrimRightPadded(c: string, b: string)
    requires AllBlank(b) && (c != [] ==> !IsBlank(c[|c| - 1]))
    ensures TrimRight(c + b) == c
  {
    if b != [] {
      assert (c + b)[..|c + b| - 1] == c + b[..|b| - 1];
      TrimRightPadded(c, b[..|b| - 1]);
    }
  }

  /** Trimming removes exactly the surrounding blanks: whatever blanks pad a string with
      no blank at either end, trimming gives that string back. */
  lemma TrimPadded(a: string, c: string, b: string)
    requires AllBlank(a) && AllBlank(b) && Trimmed(c)
    ensures Trim(a + c + b) == c
  {
    if c == [] {
      assert a + c + b == a + b;
      TrimLeftPadded(a + b, []);
      assert a + b + [] == a + b;
    } else {
      assert a + c + b == a + (c + b);
      TrimLeftPadded(a, c + b);
      TrimRightPadded(c, b);
    }
  }

  /** How a line is read. */
  datatype ConfigLine = Ignored | SectionHeader(name: string) | Entry(key: string, value: string)

  /** One trimmed line: blank lines and lines starting with `;` or `#` are skipped; a line
      that starts with `[` and ends with `]` names a section (its inside trimmed); any
      other line needs an `=`, splitting it at the first one into a trimmed key and
      a trimmed value, and is skipped without one. */
  function Classify(line: string): (r: ConfigLine)
    ensures r.SectionHeader? ==> Trimmed(r.name)
    ensures r.Entry? ==> Trimmed(r.key) && Trimmed(r.value)
  {
    ClassifyTrimmed(Trim(line))
  }

  /** The decision on a line that has already been trimmed. */
  function ClassifyTrimmed(t: string): (r: ConfigLine)
    ensures r.SectionHeader? ==> Trimmed(r.name)
    ensures r.Entry? ==> Trimmed(r.key) && Trimmed(r.value)
  {
    if t == [] || t[0] == ';' || t[0] == '#' then Ignored
    else if t[0] == '[' && t[|t| - 1] == ']' then SectionHeader(Trim(t[1..|t| - 1]))
    else SplitEntry(t)
  }

  /** A `key=value` line split at its first `=`; a line without one is skipped. */
  function SplitEntry(t: string): (r: ConfigLine)
    ensures !r.SectionHeader?
    ensures r.Entry? ==> Trimmed(r.key) && Trimmed(r.value)
  {
    match FindFrom(t, '=', 0)
    case None => Ignored
    case Some(eq) => Entry(Trim(t[..eq]), Trim(t[eq + 1..]))
  }

  /** Blank lines and comment lines are skipped, whatever follows the comment mark. */
  lemma IgnoresBlankAndComments(line: string)
    requires AllBlank(line) || (Trim(line) != [] && Trim(line)[0] in {';', '#'})
    ensures Classify(line) == Ignored
  {
  }

  /** A line that is neither a header nor contains `=` is skipped. */
  lemma IgnoresLinesWithoutEquals(line: string)
    requires '=' !in line && !(Trim(line) != [] && Trim(line)[0] == '[' && Trim(line)[|Trim(line)| - 1] == ']')
    ensures Classify(line) == Ignored
  {
    TrimIsInfix(line);
  }

  /** `[name]` padded on either side, inside or out, selects section `name`. */
  lemma HeaderSelectsTrimmedSection(a: string, b: string, name: string, c: string, d: string)
    requires AllBlank(a) && AllBlank(b) && AllBlank(c) && AllBlank(d) && Trimmed(name)
    ensures Classify(a + "[" + b + name + c + "]" + d) == SectionHeader(name)
  {
    var line := a + "[" + b + name + c + "]" + d;
    var inner := b + name + c;
    var t := "[" + inner + "]";
    assert t[0] == '[' && t[|t| - 1] == ']' && Trimmed(t) && t[1..|t| - 1] == inner;
    assert Trim(line) == t by {
      assert line == a + t + d;
      TrimmedLine(a, t, d);
    }
    assert Trim(inner) == name by { TrimPadded(b, name, c); }
    HeaderOfTrimmedLine(line, t);
  }

  lemma HeaderOfTrimmedLine(line: string, t: string)
    requires Trim(line) == t && |t| >= 2 && t[0] == '[' && t[|t| - 1] == ']'
    ensures Classify(line) == SectionHeader(Trim(t[1..|t| - 1]))
  {
  }

  /** `key = value`, padded anywhere, is read as that key and that value, split at the
      first `=`: the value may itself contain `=`, and either side may be empty. A key may
      start with `[` unless the value ends in `]`, which makes the line a header. */
  lemma EntrySplitsAtFirstEquals(a: string, key: string, b: string, c: string, value: string, d: string)
    requires AllBlank(a) && AllBlank(b) && AllBlank(c) && AllBlank(d)
    requires Trimmed(key) && Trimmed(value) && '=' !in key
    requires key != [] ==> key[0] != ';' && key[0] != '#'
    requires !(key != [] && value != [] && key[0] == '[' && value[|value| - 1] == ']')
    ensures Classify(a + key + b + "=" + c + value + d) == Entry(key, value)
  {
    if key == [] && value == [] {
      EntryBare(a, b, c, d);
      assert a + key + b + "=" + c + value + d == a + b + "=" + c + d;
    } else if key == [] {
      EntryWithoutKey(a, b, c, value, d);
      assert a + key + b == a + b;
    } else if value == [] {
      EntryWithoutValue(a, key, b, c, d);
      assert a + key + b + "=" + c + value + d == a + key + b + "=" + c + d;
    } else {
      EntryWithKey(a, key, b, c, value, d);
    }
  }

  /** A bare `=`: empty key, empty value. */
  lemma EntryBare(a: string, b: string, c: string, d: string)
    requires AllBlank(a) && AllBlank(b) && AllBlank(c) && AllBlank(d)
    ensures Classify(a + b + "=" + c + d) == Entry([], [])
  {
    AllBlankConcat(a, b);
    AllBlankConcat(c, d);
    var line := a + b + "=" + c + d;
    assert line == (a + b) + ([] + ("=" + [])) + (c + d);
    EntryFromParts(line, a + b, [], [], c + d, [], []);
  }

  lemma EntryWithoutKey(a: string, b: string, c: string, value: string, d: string)
    requires AllBlank(a) && AllBlank(b) && AllBlank(c) && AllBlank(d) && Trimmed(value) && value != []
    ensures Classify(a + b + "=" + c + value + d) == Entry([], value)
  {
    AllBlankConcat(a, b);
    ValuePart(c, value);
    var line := a + b + "=" + c + value + d;
    assert line == (a + b) + ([] + ("=" + (c + value))) + d;
    EntryFromParts(line, a + b, [], c + value, d, [], value);
  }

  lemma EntryWithoutValue(a: string, key: string, b: string, c: string, d: string)
    requires AllBlank(a) && AllBlank(b) && AllBlank(c) && AllBlank(d)
    requires Trimmed(key) && '=' !in key && key != [] && key[0] != ';' && key[0] != '#'
    ensures Classify(a + key + b + "=" + c + d) == Entry(key, [])
  {
    KeyPart(key, b);
    AllBlankConcat(c, d);
    var line := a + key + b + "=" + c + d;
    assert line == a + ((key + b) + ("=" + [])) + (c + d);
    EntryFromParts(line, a, key + b, [], c + d, key, []);
  }

  lemma EntryWithKey(a: string, key: string, b: string, c: string, value: string, d: string)
    requires AllBlank(a) && AllBlank(b) && AllBlank(c) && AllBlank(d)
    requires Trimmed(key) && Trimmed(value) && '=' !in key && key != [] && key[0] != ';' && key[0] != '#'
    requires value != [] && !(key[0] == '[' && value[|value| - 1] == ']')
    ensures Classify(a + key + b + "=" + c + value + d) == Entry(key, value)
  {
    KeyPart(key, b);
    ValuePart(c, value);
    var line := a + key + b + "=" + c + value + d;
    assert line == a + ((key + b) + ("=" + (c + value))) + d;
    EntryFromParts(line, a, key + b, c + value, d, key, value);
  }

  /** A key with its trailing blanks: no `=`, the key's first character, the key trimmed. */
  lemma KeyPart(key: string, b: string)
    requires Trimmed(key) && key != [] && '=' !in key && AllBlank(b)
    ensures '=' !in key + b && (key + b)[0] == key[0] && Trim(key + b) == key
  {
    TrimBlankSuffix(key, b);
    forall i | 0 <= i < |key + b| ensures (key + b)[i] != '=' {
      if i < |key| { assert (key + b)[i] == key[i]; } else { assert IsBlank(b[i - |key|]); }
    }
  }

  /** A value with its leading blanks: the value's last character, the value trimmed. */
  lemma ValuePart(c: string, value: string)
    requires Trimmed(value) && value != [] && AllBlank(c)
    ensures (c + value)[|c + value| - 1] == value[|value| - 1] && Trim(c + value) == value
  {
    TrimBlankPrefix(c, value);
  }

  /** A line made of blanks, then `kb = cv` with no `=` in `kb`, then blanks, is the
      entry of the trimmed `kb` and `cv`, provided `kb = cv` reads as neither a comment nor
      a header. */
  lemma EntryFromParts(line: string, pre: string, kb: string, cv: string, post: string, key: string, value: string)
    requires line == pre + (kb + ("=" + cv)) + post && AllBlank(pre) && AllBlank(post)
    requires '=' !in kb && Trim(kb) == key && Trim(cv) == value
    requires kb == [] || (!IsBlank(kb[0]) && kb[0] != ';' && kb[0] != '#')
    requires cv == [] || !IsBlank(cv[|cv| - 1])
    requires !(kb != [] && cv != [] && kb[0] == '[' && cv[|cv| - 1] == ']')
    ensures Classify(line) == Entry(key, value)
  {
    var t := kb + ("=" + cv);
    if kb == [] { assert t[0] == '='; } else { assert t[0] == kb[0]; }
    if cv == [] { assert t[|t| - 1] == '='; } else { assert t[|t| - 1] == cv[|cv| - 1]; }
    TrimmedLine(pre, t, post);
    EqualsSplit(kb, cv);
    EntryOfTrimmedLine(line, t, |kb|, key, value);
  }

  lemma AllBlankConcat(a: string, b: string)
    requires AllBlank(a) && AllBlank(b)
    ensures AllBlank(a + b)
  {
    assert forall i | |a| <= i < |a + b| :: (a + b)[i] == b[i - |a|];
  }

  lemma TrimmedLine(a: string, t: string, d: string)
    requires AllBlank(a) && AllBlank(d) && Trimmed(t)
    ensures Trim(a + t + d) == t
  {
    TrimPadded(a, t, d);
  }

  lemma EntryOfTrimmedLine(line: string, t: string, eq: nat, key: string, value: string)
    requires Trim(line) == t && t != [] && t[0] != ';' && t[0] != '#' && !(t[0] == '[' && t[|t| - 1] == ']')
    requires FindFrom(t, '=', 0) == Some(eq)
    requires Trim(t[..eq]) == key && Trim(t[eq + 1..]) == value
    ensures Classify(line) == Entry(key, value)
  {
    ClassifyTrimmedEntry(t, eq);
  }

  lemma NotHeaderIsEntryLine(t: string)
    requires t != [] && t[0] != ';' && t[0] != '#' && !(t[0] == '[' && t[|t| - 1] == ']')
    ensures ClassifyTrimmed(t) == SplitEntry(t)
  {
  }

  lemma SplitEntryAt(t: string, eq: nat)
    requires FindFrom(t, '=', 0) == Some(eq)
    ensures SplitEntry(t) == Entry(Trim(t[..eq]), Trim(t[eq + 1..]))
  {
  }

  lemma ClassifyTrimmedEntry(t: string, eq: nat)
    requires t != [] && t[0] != ';' && t[0] != '#' && !(t[0] == '[' && t[|t| - 1] == ']')
    requires FindFrom(t, '=', 0) == Some(eq)
    ensures ClassifyTrimmed(t) == Entry(Trim(t[..eq]), Trim(t[eq + 1..]))
  {
    NotHeaderIsEntryLine(t);
    SplitEntryAt(t, eq);
  }

  /** In `kb + "=" + cv`, with no `=` in `kb`, the first `=` is the one after `kb`. */
  lemma EqualsSplit(kb: string, cv: string)
    requires '=' !in kb
    ensures var t := kb + ("=" + cv);
      FindFrom(t, '=', 0) == Some(|kb|) && t[..|kb|] == kb && t[|kb| + 1..] == cv
  {
    var t := kb + ("=" + cv);
    assert t[|kb|] == '=';
    forall j | 0 <= j < |kb| ensures t[j] != '=' {
      assert t[j] == kb[j];
    }
    FindFromIs(t, '=', 0, |kb|);
    assert t[..|kb|] == kb;
    assert t[|kb| + 1..] == cv;
  }

  lemma TrimBlankSuffix(c: string, b: string)
    requires AllBlank(b) && Trimmed(c)
    ensures Trim(c + b) == c
  {
    TrimPadded([], c, b);
    assert [] + c + b == c + b;
  }

  lemma TrimBlankPrefix(a: string, c: string)
    requires AllBlank(a) && Trimmed(c)
    ensures Trim(a + c) == c
  {
    TrimPadded(a, c, []);
    assert a + c + [] == a + c;
  }

  /** The characters `isspace` accepts: space, tab, newline, vertical tab, form feed and
      carriage return. */
  predicate IsSpace(c: char) { c == ' ' || 9 as char <= c <= 13 as char }

  function DropSpaces(s: string): (r: string)
    ensures |r| <= |s| && r == s[|s| - |r|..]
    ensures r != [] ==> !IsSpace(r[0])
  {
    if s != [] && IsSpace(s[0]) then DropSpaces(s[1..]) else s
  }

  /** The length of the run of digits at the start of `s`. */
  function DigitRun(s: string): (k: nat)
    ensures k <= |s| && AllDigits(s[..k])
    ensures k < |s| ==> !IsDigit(s[k])
  {
    if s != [] && IsDigit(s[0]) then
      var k := 1 + DigitRun(s[1..]);
      assert forall i | 1 <= i < k :: s[..k][i] == s[1..][..k - 1][i - 1];
      k
    else 0
  }

  const MinInt: int := -2147483648
  const MaxInt: int := 2147483647

  /** `std::stoi` in base 10: leading white space, an optional sign and at least one
      digit, read up to the first non-digit; None where it throws (no digits, or a value
      outside `int`). */
  function Stoi(s: string): (r: Option<int>)
    ensures r.Some? ==> MinInt <= r.value <= MaxInt
  {
    ReadSigned(DropSpaces(s))
  }

  /** The part of `std::stoi` after the white space. */
  function ReadSigned(t: string): (r: Option<int>)
    ensures r.Some? ==> MinInt <= r.value <= MaxInt
  {
    var negative := t != [] && t[0] == '-';
    var u := if t != [] && (t[0] == '-' || t[0] == '+') then t[1..] else t;
    match LeadingNumber(u)
    case None => None
    case Some(m) =>
      var v: int := if negative then -(m as int) else m;
      if MinInt <= v <= MaxInt then Some(v) else None
  }

  /** The value of the digits at the start of `u`; None when `u` does not start with one. */
  function LeadingNumber(u: string): (r: Option<nat>)
    ensures r.None? <==> u == [] || !IsDigit(u[0])
  {
    var k := DigitRun(u);
    if k == 0 then None else Some(DecimalValue(u[..k]))
  }

  lemma LeadingNumberOf(d: string, rest: string)
    requires d != [] && AllDigits(d) && (rest != [] ==> !IsDigit(rest[0]))
    ensures LeadingNumber(d + rest) == Some(DecimalValue(d))
  {
    DigitRunOfDigits(d, rest);
    assert (d + rest)[..|d|] == d;
  }

  lemma {:induction false} DigitRunOfDigits(d: string, rest: string)
    requires AllDigits(d) && (rest != [] ==> !IsDigit(rest[0]))
    ensures DigitRun(d + rest) == |d|
  {
    if d == [] {
      assert d + rest == rest;
    } else {
      assert (d + rest)[0] == d[0] && (d + rest)[1..] == d[1..] + rest;
      DigitRunOfDigits(d[1..], rest);
    }
  }

  /** Leading white space is skipped up to the first other character. */
  lemma {:induction false} DropSpacesPadded(ws: string, t: string)
    requires forall i | 0 <= i < |ws| :: IsSpace(ws[i])
    requires t == [] || !IsSpace(t[0])
    ensures DropSpaces(ws + t) == t
  {
    if ws != [] {
      assert (ws + t)[0] == ws[0];
      assert (ws + t)[1..] == ws[1..] + t;
      DropSpacesPadded(ws[1..], t);
    }
  }

  /** Any `int`, rendered as `operator<<` writes it, reads back as itself, also after white
      space and before text that does not start with a digit (a unit, say). */
  lemma StoiReadsInt(ws: string, n: int, rest: string)
    requires forall i | 0 <= i < |ws| :: IsSpace(ws[i])
    requires MinInt <= n <= MaxInt && (rest != [] ==> !IsDigit(rest[0]))
    ensures Stoi(ws + IntString(n) + rest) == Some(n)
  {
    assert ws + IntString(n) + rest == ws + (IntString(n) + rest);
    if n >= 0 {
      var d := Decimal(n);
      DecimalRoundTrip(n);
      StoiReadsDigits(ws, d, rest);
    } else {
      var d := Decimal(-n);
      DecimalRoundTrip(-n);
      assert IntString(n) + rest == "-" + (d + rest);
      StoiReadsMinus(ws, d, rest);
    }
  }

  lemma StoiReadsDigits(ws: string, d: string, rest: string)
    requires forall i | 0 <= i < |ws| :: IsSpace(ws[i])
    requires d != [] && AllDigits(d) && DecimalValue(d) <= MaxInt && (rest != [] ==> !IsDigit(rest[0]))
    ensures Stoi(ws + (d + rest)) == Some(DecimalValue(d) as int)
  {
    assert (d + rest)[0] == d[0];
    DropSpacesPadded(ws, d + rest);
    ReadUnsigned(d, rest);
  }

  lemma StoiReadsMinus(ws: string, d: string, rest: string)
    requires forall i | 0 <= i < |ws| :: IsSpace(ws[i])
    requires d != [] && AllDigits(d) && DecimalValue(d) <= -MinInt && (rest != [] ==> !IsDigit(rest[0]))
    ensures Stoi(ws + ("-" + (d + rest))) == Some(-(DecimalValue(d) as int))
  {
    DropSpacesPadded(ws, "-" + (d + rest));
    ReadNegative(d, rest);
  }

  /** Digits without a sign in front are read as their value, or rejected when it is
      above `INT_MAX`. */
  lemma ReadUnsigned(d: string, rest: string)
    requires d != [] && AllDigits(d) && (rest != [] ==> !IsDigit(rest[0]))
    ensures DecimalValue(d) <= MaxInt ==> ReadSigned(d + rest) == Some(DecimalValue(d) as int)
    ensures DecimalValue(d) > MaxInt ==> ReadSigned(d + rest) == None
  {
    assert (d + rest)[0] == d[0];
    LeadingNumberOf(d, rest);
  }

  /** Digits after a minus sign are read as the negated value, or rejected when it is
      below `INT_MIN`. */
  lemma ReadNegative(d: string, rest: string)
    requires d != [] && AllDigits(d) && (rest != [] ==> !IsDigit(rest[0]))
    ensures DecimalValue(d) <= -MinInt ==> ReadSigned("-" + (d + rest)) == Some(-(DecimalValue(d) as int))
    ensures DecimalValue(d) > -MinInt ==> ReadSigned("-" + (d + rest)) == None
  {
    LeadingNumberOf(d, rest);
    MinusThenNumber(d + rest, DecimalValue(d));
  }

  lemma MinusThenNumber(u: string, m: nat)
    requires LeadingNumber(u) == Some(m)
    ensures m <= -MinInt ==> ReadSigned("-" + u) == Some(-(m as int))
    ensures m > -MinInt ==> ReadSigned("-" + u) == None
  {
    assert ("-" + u)[1..] == u;
  }

  /** A value outside `int` makes `std::stoi` throw `out_of_range`: it is rejected, with
      or without a minus sign. */
  lemma StoiRejectsOutOfRange(d: string, rest: string)
    requires d != [] && AllDigits(d) && (rest != [] ==> !IsDigit(rest[0]))
    ensures DecimalValue(d) > MaxInt ==> Stoi(d + rest) == None
    ensures DecimalValue(d) > -MinInt ==> Stoi("-" + (d + rest)) == None
  {
    assert (d + rest)[0] == d[0];
    NoLeadingSpace(d + rest);
    NoLeadingSpace("-" + (d + rest));
    ReadUnsigned(d, rest);
    ReadNegative(d, rest);
  }

  lemma NoLeadingSpace(t: string)
    requires t != [] && !IsSpace(t[0])
    ensures DropSpaces(t) == t
  {
  }

  /** `std::stoi` throws `invalid_argument`, so the value is rejected, when after the white
      space there is no digit where one is needed: nothing at all, a character that is
      neither a digit nor a sign, or a sign with no digit after it. */
  lemma StoiRejects(s: string)
    requires var t := DropSpaces(s);
      t == [] || (!IsDigit(t[0]) && ((t[0] != '-' && t[0] != '+') || |t| == 1 || !IsDigit(t[1])))
    ensures Stoi(s) == None
  {
    var t := DropSpaces(s);
    if t == [] || (t[0] != '-' && t[0] != '+') {
      NoDigitsRejected(t);
    } else {
      SignAloneRejected(t);
    }
  }

  /** A sign with no digit after it is rejected too. */
  lemma SignAloneRejected(t: string)
    requires t != [] && (t[0] == '-' || t[0] == '+') && (|t| == 1 || !IsDigit(t[1]))
    ensures ReadSigned(t) == None
  {
    assert t[1..] == [] || t[1..][0] == t[1];
  }

  /** Text after the white space that starts with neither a digit nor a sign is rejected. */
  lemma NoDigitsRejected(t: string)
    requires t == [] || (!IsDigit(t[0]) && t[0] != '-' && t[0] != '+')
    ensures ReadSigned(t) == None
  {
  }

  /** The boolean words: `true`, `1` or `yes`; anything else (including `TRUE`) is false. */
  function ParseBool(value: string): (b: bool)
    ensures b <==> value in {"true", "1", "yes"}
  {
    value == "true" || value == "1" || value == "yes"
  }

  /** Conversion of an `int` to `size_t` (64 bits): congruent modulo 2^64. */
  function SizeT(x: int): (r: nat)
    ensures r < 0x1_0000_0000_0000_0000
    ensures 0 <= x < 0x1_0000_0000_0000_0000 ==> r == x
  {
    x % 0x1_0000_0000_0000_0000
  }

  /** The parser's running state: the current section, the configuration being updated,
      and the runtime level (stored each time a `level` key is applied). */
  datatype ParseState = ParseState(section: string, config: LogConfig, level: LogLevel)

  /** One `key=value` line of section `logger`. Unknown keys change nothing; an
      unparseable number leaves the old value in place. */
  function ApplyEntry(st: ParseState, key: string, value: string): (r: ParseState)
    ensures r.section == st.section
    ensures key != "level" ==> r.level == st.level
    ensures key !in KnownKeys ==> r == st
  {
    if key == "level" then
      var l := ParseLogLevel(value);
      st.(config := st.config.(runtimeLevel := l), level := l)
    else if key == "enable_console" then st.(config := st.config.(enableConsole := ParseBool(value)))
    else if key == "enable_file" then st.(config := st.config.(enableFile := ParseBool(value)))
    else if key == "enable_color" then st.(config := st.config.(enableColor := ParseBool(value)))
    else if key == "log_file" then st.(config := st.config.(logFile := value))
    else if key == "max_file_size" then
      match Stoi(value)
      case None => st
      case Some(n) => st.(config := st.config.(maxFileSize := SizeT(n * 1024 * 1024)))
    else if key == "max_backup_files" then
      match Stoi(value)
      case None => st
      case Some(n) => st.(config := st.config.(maxBackupFiles := n))
    else st
  }

  const KnownKeys: set<string> :=
    {"level", "enable_console", "enable_file", "enable_color", "log_file", "max_file_size", "max_backup_files"}

  /** One iteration of the parse loop. Only a header changes the section; outside section
      `logger` a line changes nothing else; an entry with an unknown key changes nothing. */
  function Step(st: ParseState, line: string): (r: ParseState)
    ensures Classify(line).SectionHeader? ==> r.section == Classify(line).name
    ensures !Classify(line).SectionHeader? ==> r.section == st.section
    ensures st.section != "logger" ==> r.config == st.config && r.level == st.level
    ensures Classify(line).Entry? && Classify(line).key !in KnownKeys ==> r == st
  {
    match Classify(line)
    case Ignored => st
    case SectionHeader(name) => st.(section := name)
    case Entry(key, value) => if st.section == "logger" then ApplyEntry(st, key, value) else st
  }

  /** What each known key does to the state inside section `logger`: `level` goes through
      `parseLogLevel` into both the configuration and the runtime level; the three switches
      take `parseBool` of the value; `log_file` takes the value as it is; the two numbers
      take what `stoi` reads (the size in megabytes, as `size_t`) and stay unchanged when it
      reads nothing. */
  lemma StepKnownKeys(st: ParseState, line: string)
    requires st.section == "logger" && Classify(line).Entry?
    ensures var key, value, r := Classify(line).key, Classify(line).value, Step(st, line);
      && (key == "level" ==>
            r == st.(config := st.config.(runtimeLevel := ParseLogLevel(value)), level := ParseLogLevel(value)))
      && (key == "enable_console" ==> r == st.(config := st.config.(enableConsole := ParseBool(value))))
      && (key == "enable_file" ==> r == st.(config := st.config.(enableFile := ParseBool(value))))
      && (key == "enable_color" ==> r == st.(config := st.config.(enableColor := ParseBool(value))))
      && (key == "log_file" ==> r == st.(config := st.config.(logFile := value)))
      && (key == "max_file_size" && Stoi(value).None? ==> r == st)
      && (key == "max_file_size" && Stoi(value).Some? ==>
            r == st.(config := st.config.(maxFileSize := SizeT(Stoi(value).value * 1024 * 1024))))
      && (key == "max_backup_files" && Stoi(value).None? ==> r == st)
      && (key == "max_backup_files" && Stoi(value).Some? ==>
            r == st.(config := st.config.(maxBackupFiles := Stoi(value).value)))
  {
  }

  /** The parse loop after its first `n` iterations. */
  function ParsePrefix(st: ParseState, lines: seq<string>, n: nat): ParseState
    requires n <= |lines|
  {
    if n == 0 then st else Step(ParsePrefix(st, lines, n - 1), lines[n - 1])
  }

  /** One more iteration is one more `Step`. */
  lemma ParsePrefixNext(st: ParseState, lines: seq<string>, n: nat)
    requires 0 < n <= |lines|
    ensures ParsePrefix(st, lines, n) == Step(ParsePrefix(st, lines, n - 1), lines[n - 1])
  {
  }

  /** Two inputs that agree so far and on the next line agree after it. */
  lemma SameStep(st1: ParseState, x: seq<string>, m: nat, st2: ParseState, y: seq<string>, k: nat)
    requires 0 < m <= |x| && 0 < k <= |y| && x[m - 1] == y[k - 1]
    requires ParsePrefix(st1, x, m - 1) == ParsePrefix(st2, y, k - 1)
    ensures ParsePrefix(st1, x, m) == ParsePrefix(st2, y, k)
  {
  }

  /** The whole loop over the file's lines, first line first. */
  function ParseLines(st: ParseState, lines: seq<string>): ParseState
  {
    ParsePrefix(st, lines, |lines|)
  }

  /** `max_file_size` is read in megabytes: a value of n (up to 2047, where the product
      still fits an `int`) becomes n * 1048576 bytes; a value `stoi` rejects changes nothing. */
  lemma MaxFileSizeInMegabytes(st: ParseState, line: string)
    requires st.section == "logger" && Classify(line).Entry? && Classify(line).key == "max_file_size"
    ensures Stoi(Classify(line).value).None? ==> Step(st, line) == st
    ensures (Stoi(Classify(line).value).Some? && 0 <= Stoi(Classify(line).value).value <= 2047) ==>
              Step(st, line).config.maxFileSize == Stoi(Classify(line).value).value * 1048576
  {
    var value := Classify(line).value;
    assert Step(st, line) == ApplyEntry(st, "max_file_size", value);
    match Stoi(value)
    case None =>
    case Some(n) =>
      if 0 <= n <= 2047 {
        assert n * 1024 * 1024 == n * 1048576 <= 2047 * 1048576;
        assert SizeT(n * 1024 * 1024) == n * 1048576;
      }
  }

  /** Outside section `logger` nothing is applied: a file whose lines never open that
      section leaves the configuration and the runtime level as they were. */
  lemma NoLoggerSectionNoChange(st: ParseState, lines: seq<string>)
    requires st.section != "logger"
    requires forall i | 0 <= i < |lines| :: Classify(lines[i]) != SectionHeader("logger")
    ensures ParseLines(st, lines).config == st.config && ParseLines(st, lines).level == st.level
    ensures ParseLines(st, lines).section != "logger"
  {
    NoLoggerSectionPrefix(st, lines, |lines|);
  }

  lemma {:induction false} NoLoggerSectionPrefix(st: ParseState, lines: seq<string>, n: nat)
    requires n <= |lines| && st.section != "logger"
    requires forall i | 0 <= i < |lines| :: Classify(lines[i]) != SectionHeader("logger")
    ensures var ps := ParsePrefix(st, lines, n);
      ps.config == st.config && ps.level == st.level && ps.section != "logger"
  {
    if n > 0 {
      NoLoggerSectionPrefix(st, lines, n - 1);
    }
  }

  /** The first `n` iterations only see the first `n` lines. */
  lemma {:induction false} ParsePrefixOfPrefix(st: ParseState, a: seq<string>, b: seq<string>, n: nat)
    requires n <= |a|
    ensures ParsePrefix(st, a + b, n) == ParsePrefix(st, a, n)
  {
    if n > 0 {
      ParsePrefixOfPrefix(st, a, b, n - 1);
      assert (a + b)[n - 1] == a[n - 1];
      SameStep(st, a + b, n, st, a, n);
    }
  }

  lemma {:induction false} ParsePrefixAppend(st: ParseState, a: seq<string>, b: seq<string>, k: nat, m: nat)
    requires k <= |b| && m == |a| + k
    ensures ParsePrefix(st, a + b, m) == ParsePrefix(ParseLines(st, a), b, k)
  {
    if k == 0 {
      ParsePrefixOfPrefix(st, a, b, m);
    } else {
      ParsePrefixAppend(st, a, b, k - 1, m - 1);
      assert (a + b)[m - 1] == b[k - 1];
      SameStep(st, a + b, m, ParseLines(st, a), b, k);
    }
  }

  /** Parsing a file in two pieces is parsing the first piece and then the second. */
  lemma ParseLinesAppend(st: ParseState, a: seq<string>, b: seq<string>)
    ensures ParseLines(st, a + b) == ParseLines(ParseLines(st, a), b)
  {
    ParsePrefixAppend(st, a, b, |b|, |a + b|);
  }
}
