/**
  The JavaScript built-ins that the AI-TUBE server and client lean on, written out
  so that their edge cases are explicit: truthiness of optional strings,
  String.prototype.trim, parseInt with radix 10, Number-to-string conversion,
  String.prototype.split on one character, String.prototype.replace with a
  pattern that matches its first occurrence, indexOf/includes and Array.join.
  Numbers are unbounded integers or NaN; the 2^53 limit of doubles is not modelled.
 */
module Js {

  datatype Option<+T> = None | Some(value: T)

  /** `!!v` for a value that is a string, or undefined/null (None). */
  predicate Truthy(v: Option<string>) {
    v.Some? && v.value != ""
  }

  /** `String(v || '')`: an absent or empty value becomes the empty string. */
  function OrEmpty(v: Option<string>): (r: string)
    ensures Truthy(v) <==> r != ""
    ensures Truthy(v) ==> r == v.value
  {
    if v.Some? then v.value else ""
  }

  // ---------------------------------------------------------------------------
  // Whitespace and trim

  /** The WhiteSpace and LineTerminator code points that trim() and parseInt() skip. */
  predicate IsSpace(c: char) {
    || c == '\t' || c == '\n' || c == '\U{000B}' || c == '\U{000C}' || c == '\r' || c == ' '
    || c == '\U{00A0}' || c == '\U{1680}' || ('\U{2000}' <= c <= '\U{200A}')
    || c == '\U{2028}' || c == '\U{2029}' || c == '\U{202F}' || c == '\U{205F}'
    || c == '\U{3000}' || c == '\U{FEFF}'
  }

  predicate AllSpace(s: string) {
    forall i :: 0 <= i < |s| ==> IsSpace(s[i])
  }

  /** trimStart(): drops the leading whitespace. */
  function TrimStart(s: string): (r: string)
    ensures |r| <= |s|
    ensures r == [] || !IsSpace(r[0])
    decreases |s|
  {
    if s != [] && IsSpace(s[0]) then TrimStart(s[1..]) else s
  }

  /** What trimStart() drops is whitespace, and what it keeps is the rest of the text. */
  lemma {:induction false} TrimStartDrops(s: string)
    ensures TrimStart(s) == s[|s| - |TrimStart(s)|..]
    ensures AllSpace(s[..|s| - |TrimStart(s)|])
    decreases |s|
  {
    if s != [] && IsSpace(s[0]) {
      TrimStartDrops(s[1..]);
      assert s[1..][..|s| - 1 - |TrimStart(s)|] == s[1..|s| - |TrimStart(s)|];
    }
  }

  /** trimEnd(): drops the trailing whitespace. */
  function TrimEnd(s: string): (r: string)
    ensures |r| <= |s|
    ensures r == [] || !IsSpace(r[|r| - 1])
    decreases |s|
  {
    if s != [] && IsSpace(s[|s| - 1]) then TrimEnd(s[..|s| - 1]) else s
  }

  /** What trimEnd() keeps is a prefix of the text, and what it drops is whitespace. */
  lemma {:induction false} TrimEndDrops(s: string)
    ensures TrimEnd(s) <= s
    ensures AllSpace(s[|TrimEnd(s)|..])
    decreases |s|
  {
    if s != [] && IsSpace(s[|s| - 1]) {
      TrimEndDrops(s[..|s| - 1]);
    }
  }

  /** trim(): the text between the leading and the trailing whitespace. */
  function Trim(s: string): (r: string)
    ensures |r| <= |s|
    ensures r == [] || (!IsSpace(r[0]) && !IsSpace(r[|r| - 1]))
  {
    var t := TrimStart(s);
    TrimEndDrops(t);
    TrimEnd(t)
  }

  /** A trimmed value is empty exactly when the text was all whitespace. */
  lemma TrimEmptyIff(s: string)
    ensures Trim(s) == [] <==> AllSpace(s)
  {
    var t := TrimStart(s);
    TrimStartDrops(s);
    TrimEndDrops(t);
    if Trim(s) == [] {
      assert t[0..] == t;
      assert s[..|s|] == s;
    }
  }

  /** Trimming twice changes nothing more. */
  lemma TrimIdempotent(s: string)
    ensures Trim(Trim(s)) == Trim(s)
  {
    var r := Trim(s);
    assert r == [] || !IsSpace(r[0]);
    assert TrimStart(r) == r;
    assert r == [] || !IsSpace(r[|r| - 1]);
    assert TrimEnd(r) == r;
  }

  // ---------------------------------------------------------------------------
  // Searching

  predicate OccursAt(s: string, pat: string, i: nat) {
    i + |pat| <= |s| && s[i..i + |pat|] == pat
  }

  lemma OccursAtTail(s: string, pat: string, j: nat)
    requires s != []
    ensures OccursAt(s, pat, j + 1) <==> OccursAt(s[1..], pat, j)
  {
    if j + 1 + |pat| <= |s| {
      assert s[j + 1..j + 1 + |pat|] == s[1..][j..j + |pat|];
    }
  }

  /** indexOf(pat): the first position at which pat occurs. */
  function IndexOf(s: string, pat: string): (r: Option<nat>)
    ensures r.Some? ==> OccursAt(s, pat, r.value)
    ensures r.Some? ==> forall j :: 0 <= j < r.value ==> !OccursAt(s, pat, j)
    ensures r.None? ==> forall j :: 0 <= j <= |s| ==> !OccursAt(s, pat, j)
    decreases |s|
  {
    if pat <= s then
      assert s[0..|pat|] == pat;
      Some(0)
    else if s == [] then
      None
    else
      var rest := IndexOf(s[1..], pat);
      assert !OccursAt(s, pat, 0);
      forall j: nat | j < |s| ensures OccursAt(s, pat, j + 1) <==> OccursAt(s[1..], pat, j) {
        OccursAtTail(s, pat, j);
      }
      match rest
      case None =>
        assert forall j :: 0 <= j <= |s| ==> !OccursAt(s, pat, j) by {
          forall j | 1 <= j <= |s| ensures !OccursAt(s, pat, j) {
            OccursAtTail(s, pat, j - 1);
          }
        }
        None
      case Some(k) =>
        assert forall j :: 1 <= j < k + 1 ==> !OccursAt(s, pat, j) by {
          forall j | 1 <= j < k + 1 ensures !OccursAt(s, pat, j) {
            OccursAtTail(s, pat, j - 1);
          }
        }
        Some(k + 1)
  }

  /** includes(pat). */
  predicate Includes(s: string, pat: string) {
    IndexOf(s, pat).Some?
  }

  /** replace(pat, rep) with a pattern without the global flag: only the first occurrence is replaced. */
  function ReplaceFirst(s: string, pat: string, rep: string): (r: string)
    ensures IndexOf(s, pat).None? ==> r == s
    ensures IndexOf(s, pat).Some? ==>
      && |r| == |s| - |pat| + |rep|
      && s[..IndexOf(s, pat).value] + rep <= r
      && r[IndexOf(s, pat).value + |rep|..] == s[IndexOf(s, pat).value + |pat|..]
  {
    match IndexOf(s, pat)
    case None => s
    case Some(i) => s[..i] + rep + s[i + |pat|..]
  }

  lemma ReplaceFirstAbsent(s: string, pat: string, rep: string)
    requires forall j :: 0 <= j <= |s| ==> !OccursAt(s, pat, j)
    ensures ReplaceFirst(s, pat, rep) == s
  {
  }

  /** A pattern at the very start is the one that is replaced. */
  lemma ReplaceFirstAtStart(pat: string, rest: string, rep: string)
    ensures ReplaceFirst(pat + rest, pat, rep) == rep + rest
  {
    var s := pat + rest;
    assert pat <= s;
    assert IndexOf(s, pat) == Some(0);
    assert s[|pat|..] == rest;
  }

  // ---------------------------------------------------------------------------
  // Splitting and joining

  /** Array.prototype.join(sep). */
  function Join(parts: seq<string>, sep: string): string
  {
    if parts == [] then ""
    else if |parts| == 1 then parts[0]
    else parts[0] + sep + Join(parts[1..], sep)
  }

  /** split(sep) for a one-character separator: every maximal run between separators, empty runs included. */
  function Split(s: string, sep: char): (parts: seq<string>)
    ensures |parts| >= 1
    ensures forall k :: 0 <= k < |parts| ==> sep !in parts[k]
    ensures Join(parts, [sep]) == s
    decreases |s|
  {
    if s == [] then [[]]
    else
      var rest := Split(s[1..], sep);
      if s[0] == sep then
        assert Join([[]] + rest, [sep]) == [] + [sep] + Join(rest, [sep]);
        [[]] + rest
      else
        var parts := [[s[0]] + rest[0]] + rest[1..];
        assert Join(parts, [sep]) == [s[0]] + Join(rest, [sep]) by {
          if |rest| > 1 {
            assert parts[1..] == rest[1..];
          }
        }
        parts
  }

  lemma {:induction false} SplitWithoutSeparator(s: string, sep: char)
    requires sep !in s
    ensures Split(s, sep) == [s]
    decreases |s|
  {
    if s != [] {
      SplitWithoutSeparator(s[1..], sep);
    }
  }

  /** Text before the first separator becomes the first part. */
  lemma {:induction false} SplitAtFirst(a: string, sep: char, b: string)
    requires sep !in a
    ensures Split(a + [sep] + b, sep) == [a] + Split(b, sep)
    decreases |a|
  {
    var s := a + [sep] + b;
    if a == [] {
      assert s[1..] == b;
    } else {
      assert s[0] == a[0] && a[0] != sep;
      assert s[1..] == a[1..] + [sep] + b;
      SplitAtFirst(a[1..], sep, b);
      assert [a[0]] + a[1..] == a;
    }
  }

  // ---------------------------------------------------------------------------
  // Numbers

  /** A JavaScript number as the core produces it: an integer or NaN. */
  datatype Num = NaN | Finite(v: int)

  function Add(a: Num, b: Num): (r: Num)
    ensures r.Finite? <==> a.Finite? && b.Finite?
  {
    if a.Finite? && b.Finite? then Finite(a.v + b.v) else NaN
  }

  function Sub(a: Num, b: Num): (r: Num)
    ensures r.Finite? <==> a.Finite? && b.Finite?
  {
    if a.Finite? && b.Finite? then Finite(a.v - b.v) else NaN
  }

  /** Math.max(0, a): NaN stays NaN. */
  function Max0(a: Num): (r: Num)
    ensures r.Finite? <==> a.Finite?
    ensures r.Finite? ==> r.v >= 0 && r.v >= a.v && (r.v == 0 || r.v == a.v)
  {
    if a.NaN? then NaN else if a.v < 0 then Finite(0) else a
  }

  /** `a || 0`: NaN (and 0) become 0. */
  function OrZero(a: Num): (r: int)
    ensures a.Finite? ==> r == a.v
    ensures a.NaN? ==> r == 0
  {
    if a.NaN? then 0 else a.v
  }

  predicate IsDigit(c: char) {
    '0' <= c <= '9'
  }

  predicate AllDigits(s: string) {
    forall i :: 0 <= i < |s| ==> IsDigit(s[i])
  }

  function DigitChar(d: nat): (c: char)
    requires d < 10
    ensures IsDigit(c)
  {
    ('0' as int + d) as char
  }

  function DigitValue(c: char): (d: nat)
    requires IsDigit(c)
    ensures d < 10 && DigitChar(d) == c
  {
    c as int - '0' as int
  }

  /** The longest prefix made of decimal digits. */
  function DigitPrefix(s: string): (r: string)
    ensures r <= s && AllDigits(r)
    ensures |r| < |s| ==> !IsDigit(s[|r|])
    decreases |s|
  {
    if s != [] && IsDigit(s[0]) then [s[0]] + DigitPrefix(s[1..]) else []
  }

  /** The value of a string of decimal digits, most significant first. */
  function DigitsValue(ds: string): nat
    requires AllDigits(ds)
    decreases |ds|
  {
    if ds == [] then 0 else DigitsValue(ds[..|ds| - 1]) * 10 + DigitValue(ds[|ds| - 1])
  }

  /** parseInt(s, 10): skip leading whitespace, take an optional sign and the longest run of digits; no digits gives NaN. */
  function ParseInt(s: string): (n: Num)
    ensures n.Finite? && n.v < 0 ==> '-' in s
  {
    TrimStartDrops(s);
    var t := TrimStart(s);
    var negative := t != [] && t[0] == '-';
    var body := if t != [] && (t[0] == '-' || t[0] == '+') then t[1..] else t;
    var ds := DigitPrefix(body);
    if ds == [] then NaN
    else if negative then Finite(-(DigitsValue(ds) as int))
    else Finite(DigitsValue(ds))
  }

  /** The decimal text of a natural number, with no leading zeros. */
  function NatText(n: nat): (s: string)
    ensures s != [] && AllDigits(s)
    decreases n
  {
    if n < 10 then [DigitChar(n)] else NatText(n / 10) + [DigitChar(n % 10)]
  }

  /** String(i) for an integer. */
  function IntText(i: int): (s: string)
    ensures s != []
    ensures s[0] == '-' <==> i < 0
  {
    if i < 0 then "-" + NatText(-i) else NatText(i)
  }

  /** String(n): "NaN" for NaN. */
  function NumText(n: Num): (s: string)
    ensures s == "NaN" <==> n.NaN?
  {
    match n
    case NaN => "NaN"
    case Finite(i) => IntText(i)
  }

  lemma {:induction false} DigitsValueOfNatText(n: nat)
    ensures DigitsValue(NatText(n)) == n
    decreases n
  {
    var s := NatText(n);
    if n >= 10 {
      DigitsValueOfNatText(n / 10);
      assert s[..|s| - 1] == NatText(n / 10);
    } else {
      assert s[..|s| - 1] == [];
    }
  }

  lemma {:induction false} DigitPrefixOfDigits(s: string)
    requires AllDigits(s)
    ensures DigitPrefix(s) == s
    decreases |s|
  {
    if s != [] {
      DigitPrefixOfDigits(s[1..]);
    }
  }

  lemma NatTextHasNoSeparators(n: nat)
    ensures '-' !in NatText(n) && '/' !in NatText(n)
  {
  }

  /** parseInt of the empty string is NaN. */
  lemma ParseIntEmpty()
    ensures ParseInt("") == NaN
  {
    assert TrimStart("") == "" && DigitPrefix("") == "";
  }

  /** A digit is neither whitespace nor a sign. */
  lemma DigitIsPlain(c: char)
    requires IsDigit(c)
    ensures !IsSpace(c) && c != '-' && c != '+'
  {
  }

  /** trimStart() keeps a string that does not start with whitespace. */
  lemma TrimStartKeeps(s: string)
    requires s == [] || !IsSpace(s[0])
    ensures TrimStart(s) == s
  {
  }

  /** parseInt reads back the decimal text of a natural number. */
  lemma ParseNatText(n: nat)
    ensures ParseInt(NatText(n)) == Finite(n)
  {
    var s := NatText(n);
    DigitsValueOfNatText(n);
    DigitPrefixOfDigits(s);
    DigitIsPlain(s[0]);
    TrimStartKeeps(s);
  }

  /** parseInt reads back what String() wrote, so a counter survives its round trip through the page text. */
  lemma ParseIntText(i: int)
    ensures ParseInt(IntText(i)) == Finite(i)
  {
    if i >= 0 {
      ParseNatText(i);
    } else {
      var s := IntText(i);
      var digits := NatText(-i);
      DigitsValueOfNatText(-i);
      DigitPrefixOfDigits(digits);
      TrimStartKeeps(s);
      assert s[1..] == digits;
    }
  }

  lemma ParseIntNumText(n: Num)
    ensures ParseInt(NumText(n)) == n
  {
    match n
    case Finite(i) => ParseIntText(i);
    case NaN =>
      assert TrimStart("NaN") == "NaN";
      assert DigitPrefix("NaN") == [];
  }
}
