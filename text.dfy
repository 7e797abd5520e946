/** The JavaScript string operations the controllers rely on: `trim`,
    `toLowerCase`/`toUpperCase`, `split`, the `\s` and `\d` regex classes,
    `parseInt` and number-to-string conversion. */
module Text {
  import opened Common

  /** ECMAScript WhiteSpace and LineTerminator code points: the set that
      `String.prototype.trim` removes and that the regex class `\s` matches. */
  predicate IsSpace(c: char) {
    c == '\t' || c == '\n' || c == '\U{B}' || c == '\U{C}' || c == '\r' || c == ' '
    || c == '\U{A0}' || c == '\U{1680}' || ('\U{2000}' <= c <= '\U{200A}')
    || c == '\U{2028}' || c == '\U{2029}' || c == '\U{202F}' || c == '\U{205F}'
    || c == '\U{3000}' || c == '\U{FEFF}'
  }

  /** The regex class `\d`. */
  predicate IsDigit(c: char) {
    '0' <= c <= '9'
  }

  predicate AllDigits(s: string) {
    forall i :: 0 <= i < |s| ==> IsDigit(s[i])
  }

  // ---------------------------------------------------------------- trim

  function TrimStart(s: string): (r: string)
    ensures |r| <= |s| && r == s[|s| - |r|..]
    ensures r == [] || !IsSpace(r[0])
    ensures forall i :: 0 <= i < |s| - |r| ==> IsSpace(s[i])
  {
    if s != [] && IsSpace(s[0]) then TrimStart(s[1..]) else s
  }

  function TrimEnd(s: string): (r: string)
    ensures |r| <= |s| && r == s[..|r|]
    ensures r == [] || !IsSpace(r[|r| - 1])
    ensures forall i :: |r| <= i < |s| ==> IsSpace(s[i])
  {
    if s != [] && IsSpace(s[|s| - 1]) then TrimEnd(s[..|s| - 1]) else s
  }

  /** `String.prototype.trim`. */
  function Trim(s: string): string {
    TrimEnd(TrimStart(s))
  }

  /** `trim` leaves neither leading nor trailing whitespace. */
  lemma TrimHasNoEdgeSpace(s: string)
    ensures var r := Trim(s); r == [] || (!IsSpace(r[0]) && !IsSpace(r[|r| - 1]))
  {
    var t := TrimStart(s);
    var r := TrimEnd(t);
    if r != [] {
      assert r[0] == t[0];
    }
  }

  lemma TrimIdempotent(s: string)
    ensures Trim(Trim(s)) == Trim(s)
  {
    var r := Trim(s);
    TrimHasNoEdgeSpace(s);
    assert TrimStart(r) == r;
    assert TrimEnd(r) == r;
  }

  /** `trim` gives the empty string exactly when every character is whitespace. */
  lemma TrimEmptyIff(s: string)
    ensures Trim(s) == "" <==> forall i :: 0 <= i < |s| ==> IsSpace(s[i])
  {
  }

  /** `trim` only drops characters: whatever it keeps was in the text. */
  lemma TrimKeepsChars(s: string)
    ensures forall c :: c in Trim(s) ==> c in s
  {
    var t := TrimStart(s);
    var r := TrimEnd(t);
    forall c | c in r ensures c in s {
      var i :| 0 <= i < |r| && r[i] == c;
      assert t[i] == c;
      assert s[|s| - |t| + i] == c;
    }
  }

  // ---------------------------------------------------------- letter case

  function LowerChar(c: char): char {
    if 'A' <= c <= 'Z' then (c as int - 'A' as int + 'a' as int) as char else c
  }

  function UpperChar(c: char): char {
    if 'a' <= c <= 'z' then (c as int - 'a' as int + 'A' as int) as char else c
  }

  /** `toLowerCase`, on the ASCII letters. */
  function ToLower(s: string): (r: string)
    ensures |r| == |s|
    ensures forall i :: 0 <= i < |s| ==> r[i] == LowerChar(s[i])
  {
    if s == [] then [] else [LowerChar(s[0])] + ToLower(s[1..])
  }

  /** `toUpperCase`, on the ASCII letters. */
  function ToUpper(s: string): (r: string)
    ensures |r| == |s|
    ensures forall i :: 0 <= i < |s| ==> r[i] == UpperChar(s[i])
  {
    if s == [] then [] else [UpperChar(s[0])] + ToUpper(s[1..])
  }

  lemma ToLowerIdempotent(s: string)
    ensures ToLower(ToLower(s)) == ToLower(s)
  {
    var l := ToLower(s);
    assert forall i :: 0 <= i < |l| ==> LowerChar(l[i]) == l[i];
  }

  /** Trimming a lower-cased string leaves it lower-cased. */
  lemma TrimKeepsLower(s: string)
    requires ToLower(s) == s
    ensures ToLower(Trim(s)) == Trim(s)
  {
    var a := TrimStart(s);
    var t := TrimEnd(a);
    forall i | 0 <= i < |t| ensures LowerChar(t[i]) == t[i] {
      var j := |s| - |a| + i;
      assert t[i] == a[i] == s[j];
      assert ToLower(s)[j] == LowerChar(s[j]);
    }
    var l := ToLower(t);
    assert |l| == |t| && forall i :: 0 <= i < |t| ==> l[i] == t[i];
  }

  /** Lower-casing a trimmed string leaves it trimmed. */
  lemma LowerKeepsTrimmed(s: string)
    requires Trim(s) == s
    ensures Trim(ToLower(s)) == ToLower(s)
  {
    TrimHasNoEdgeSpace(s);
    var l := ToLower(s);
    if l != [] {
      assert !IsSpace(l[0]) && !IsSpace(l[|l| - 1]);
      assert TrimStart(l) == l;
      assert TrimEnd(l) == l;
    }
  }

  // ---------------------------------------------------------------- split

  function Occurrences(s: string, c: char): nat {
    if s == [] then 0 else (if s[0] == c then 1 else 0) + Occurrences(s[1..], c)
  }

  /** `s.split(sep)` for a one-character separator. */
  function Split(s: string, sep: char): (r: seq<string>)
    ensures |r| >= 1
  {
    if s == [] then [""]
    else
      var rest := Split(s[1..], sep);
      if s[0] == sep then [""] + rest else [[s[0]] + rest[0]] + rest[1..]
  }

  function Join(parts: seq<string>, sep: char): string
    requires |parts| >= 1
  {
    if |parts| == 1 then parts[0] else parts[0] + [sep] + Join(parts[1..], sep)
  }

  /** Splitting never leaves the separator inside a piece, makes one piece
      more than there are separators, and joining the pieces back gives the
      original string. */
  lemma {:induction false} SplitSpec(s: string, sep: char)
    ensures forall i :: 0 <= i < |Split(s, sep)| ==> sep !in Split(s, sep)[i]
    ensures |Split(s, sep)| == Occurrences(s, sep) + 1
    ensures Join(Split(s, sep), sep) == s
  {
    if s != [] {
      SplitSpec(s[1..], sep);
      var rest := Split(s[1..], sep);
      if s[0] == sep {
        assert Split(s, sep) == [""] + rest;
        assert Join([""] + rest, sep) == "" + [sep] + Join(rest, sep);
      } else {
        var r := Split(s, sep);
        assert r == [[s[0]] + rest[0]] + rest[1..];
        if |rest| == 1 {
          assert Join(r, sep) == [s[0]] + rest[0];
        } else {
          assert r[1..] == rest[1..];
          assert Join(r, sep) == [s[0]] + rest[0] + [sep] + Join(rest[1..], sep);
          assert Join(rest, sep) == rest[0] + [sep] + Join(rest[1..], sep);
        }
        assert s == [s[0]] + s[1..];
      }
    }
  }

  /** The first piece of a split is the text before the first separator;
      when there is a second piece, the rest of the string after that
      separator splits into the remaining pieces. */
  lemma {:induction false} SplitFirst(s: string, sep: char)
    ensures var r := Split(s, sep);
      sep !in r[0] && |r[0]| <= |s| && s[..|r[0]|] == r[0]
      && (|r| == 1 ==> s == r[0])
      && (|r| >= 2 ==> |r[0]| < |s| && s[|r[0]|] == sep && Split(s[|r[0]| + 1..], sep) == r[1..])
  {
    if s != [] {
      var t := s[1..];
      SplitFirst(t, sep);
      var rest := Split(t, sep);
      var r := Split(s, sep);
      if s[0] == sep {
        assert r == [""] + rest;
        assert s[|r[0]| + 1..] == t;
      } else {
        var p := [s[0]] + rest[0];
        assert r == [p] + rest[1..];
        assert s[..|p|] == [s[0]] + t[..|rest[0]|];
        assert s == [s[0]] + t;
        if |rest| >= 2 {
          assert s[|p|] == t[|rest[0]|];
          assert t[|rest[0]| + 1..] == s[|p| + 1..];
        }
      }
    }
  }

  /** Splitting text that starts with a separator-free piece and a
      separator. */
  lemma {:induction false} SplitAfter(p: string, q: string, sep: char)
    requires sep !in p
    ensures Split(p + [sep] + q, sep) == [p] + Split(q, sep)
  {
    if p == [] {
      assert [sep] + q == p + [sep] + q;
      assert ([sep] + q)[1..] == q;
    } else {
      SplitAfter(p[1..], q, sep);
      assert (p + [sep] + q)[1..] == p[1..] + [sep] + q;
      assert [p[0]] + p[1..] == p;
    }
  }

  /** Text without the separator is a single piece. */
  lemma {:induction false} SplitNone(p: string, sep: char)
    requires sep !in p
    ensures Split(p, sep) == [p]
  {
    if p != [] {
      SplitNone(p[1..], sep);
      assert [p[0]] + p[1..] == p;
    }
  }

  // ------------------------------------------------------- regex filtering

  /** `s.replace(/\s/g, "")`. */
  function RemoveSpaces(s: string): (r: string)
    ensures |r| <= |s|
    ensures forall i :: 0 <= i < |r| ==> !IsSpace(r[i])
  {
    if s == [] then [] else (if IsSpace(s[0]) then [] else [s[0]]) + RemoveSpaces(s[1..])
  }

  function NonSpaceCount(s: string): nat {
    if s == [] then 0 else (if IsSpace(s[0]) then 0 else 1) + NonSpaceCount(s[1..])
  }

  /** What survives whitespace removal: as many characters as `s` has
      non-whitespace ones, and only digits exactly when every
      non-whitespace character of `s` is a digit. */
  lemma {:induction false} RemoveSpacesSpec(s: string)
    ensures |RemoveSpaces(s)| == NonSpaceCount(s)
    ensures AllDigits(RemoveSpaces(s)) <==> forall i :: 0 <= i < |s| && !IsSpace(s[i]) ==> IsDigit(s[i])
  {
    if s != [] {
      RemoveSpacesSpec(s[1..]);
      var tail := RemoveSpaces(s[1..]);
      var r := RemoveSpaces(s);
      if IsSpace(s[0]) {
        assert r == tail;
        assert forall i :: 1 <= i < |s| ==> s[i] == s[1..][i - 1];
      } else {
        assert r == [s[0]] + tail;
        assert forall i :: 1 <= i < |s| ==> s[i] == s[1..][i - 1];
        assert forall i :: 0 <= i < |tail| ==> tail[i] == r[i + 1];
        assert r[0] == s[0];
        assert forall i :: 1 <= i < |r| ==> r[i] == tail[i - 1];
        assert AllDigits(r) <==> IsDigit(s[0]) && AllDigits(tail);
      }
    }
  }

  // ------------------------------------------------------- number <-> text

  function DigitChar(d: nat): char
    requires d < 10
  {
    ('0' as int + d) as char
  }

  function DigitValue(c: char): nat
    requires IsDigit(c)
  {
    c as int - '0' as int
  }

  /** Decimal rendering of a natural number, as in a template literal. */
  function NatToString(n: nat): (r: string)
    ensures |r| >= 1 && AllDigits(r)
  {
    if n < 10 then [DigitChar(n)] else NatToString(n / 10) + [DigitChar(n % 10)]
  }

  function IntToString(i: int): string {
    if i < 0 then "-" + NatToString(-i) else NatToString(i)
  }

  /** The longest prefix of `s` made of decimal digits. */
  function DigitPrefix(s: string): (r: string)
    ensures |r| <= |s| && r == s[..|r|] && AllDigits(r)
    ensures |r| < |s| ==> !IsDigit(s[|r|])
  {
    if s != [] && IsDigit(s[0]) then [s[0]] + DigitPrefix(s[1..]) else []
  }

  function DigitsValue(d: string): nat
    requires AllDigits(d)
  {
    if d == [] then 0 else DigitsValue(d[..|d| - 1]) * 10 + DigitValue(d[|d| - 1])
  }

  /** `parseInt(s)` in base ten: leading whitespace, an optional sign, then
      the longest run of digits; `None` stands for `NaN`. */
  function ParseInt(s: string): Option<int> {
    var t := TrimStart(s);
    if t != [] && (t[0] == '-' || t[0] == '+') then
      var d := DigitPrefix(t[1..]);
      if d == [] then None else Some(if t[0] == '-' then -(DigitsValue(d) as int) else DigitsValue(d))
    else
      var d := DigitPrefix(t);
      if d == [] then None else Some(DigitsValue(d))
  }

  lemma {:induction false} DigitsValueOfNatToString(n: nat)
    ensures DigitsValue(NatToString(n)) == n
  {
    var r := NatToString(n);
    if n >= 10 {
      DigitsValueOfNatToString(n / 10);
      assert r[..|r| - 1] == NatToString(n / 10);
    }
  }

  lemma DigitPrefixOfDigits(s: string)
    requires AllDigits(s)
    ensures DigitPrefix(s) == s
  {
    if s != [] {
      assert AllDigits(s[1..]);
      DigitPrefixOfDigits(s[1..]);
    }
  }

  lemma ParseNatString(n: nat)
    ensures ParseInt(NatToString(n)) == Some(n)
  {
    var s := NatToString(n);
    assert !IsSpace(s[0]) && !(s[0] == '-' || s[0] == '+');
    assert TrimStart(s) == s;
    DigitPrefixOfDigits(s);
    DigitsValueOfNatToString(n);
  }

  lemma ParseNegString(n: nat)
    ensures ParseInt("-" + NatToString(n)) == Some(-(n as int))
  {
    var d := NatToString(n);
    var s := "-" + d;
    assert s[0] == '-' && !IsSpace(s[0]);
    assert TrimStart(s) == s;
    assert s[1..] == d;
    DigitPrefixOfDigits(d);
    DigitsValueOfNatToString(n);
  }

  /** `parseInt` reads back what a template literal writes. */
  lemma ParseIntRoundTrip(i: int)
    ensures ParseInt(IntToString(i)) == Some(i)
  {
    if i < 0 {
      ParseNegString(-i);
    } else {
      ParseNatString(i);
    }
  }

  /** `parseInt` of a query parameter whose default is the number `d`. */
  function IntParam(s: Option<string>, d: int): (r: Option<int>)
    ensures s.None? ==> r == Some(d)
    ensures s.Some? ==> r == ParseInt(s.value)
  {
    if s.None? then Some(d) else ParseInt(s.value)
  }

  /** `sortOrder.toUpperCase() === "ASC"`: the one test both search
      endpoints use to choose an ascending sort. */
  predicate AscendingOrder(sortOrder: string) {
    ToUpper(sortOrder) == "ASC"
  }

  /** Exactly the eight spellings of `asc` in any letter case choose an
      ascending sort. */
  lemma AscendingOrderIff(sortOrder: string)
    ensures AscendingOrder(sortOrder) <==>
      |sortOrder| == 3 && sortOrder[0] in "aA" && sortOrder[1] in "sS" && sortOrder[2] in "cC"
  {
    var u := ToUpper(sortOrder);
    if |sortOrder| == 3 {
      assert u == [u[0], u[1], u[2]];
      assert "ASC" == ['A', 'S', 'C'];
      assert u == "ASC" <==> u[0] == 'A' && u[1] == 'S' && u[2] == 'C';
    }
  }
}
