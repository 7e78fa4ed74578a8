/**
 * The Python string built-ins the bot relies on: `str.strip()`, the `\s`
 * class, `str.isdigit()`, `str(int)`, `int(str)` and `str.split(sep)`.
 * Strings are sequences of Unicode scalar values; digits are ASCII.
 */
module Text {

  /** Python's `str.isspace()` for one character, which is also what `\s` matches. */
  predicate IsSpace(c: char)
  {
    ('\t' <= c <= '\r') || ('\U{1C}' <= c <= ' ') || c == '\U{85}' || c == '\U{A0}'
    || c == '\U{1680}' || ('\U{2000}' <= c <= '\U{200A}') || c == '\U{2028}' || c == '\U{2029}'
    || c == '\U{202F}' || c == '\U{205F}' || c == '\U{3000}'
  }

  predicate IsDigit(c: char)
  {
    '0' <= c <= '9'
  }

  predicate AllDigits(s: string)
  {
    forall i :: 0 <= i < |s| ==> IsDigit(s[i])
  }

  /** Python's `s.isdigit()`: non-empty and digits only. */
  predicate IsDigitString(s: string)
  {
    |s| > 0 && AllDigits(s)
  }

  predicate NoSpace(s: string)
  {
    forall i :: 0 <= i < |s| ==> !IsSpace(s[i])
  }

  // ---------------------------------------------------------------- strip

  /** Drops leading whitespace. */
  function StripLeft(s: string): (r: string)
    ensures |r| <= |s|
  {
    if s != [] && IsSpace(s[0]) then StripLeft(s[1..]) else s
  }

  /** Drops trailing whitespace. */
  function StripRight(s: string): (r: string)
    ensures |r| <= |s|
  {
    if s != [] && IsSpace(s[|s| - 1]) then StripRight(s[..|s| - 1]) else s
  }

  /** Python's `s.strip()`. */
  function Strip(s: string): (r: string)
    ensures |r| <= |s|
  {
    StripRight(StripLeft(s))
  }

  /** `StripLeft` removes a prefix made only of whitespace and stops at the first other character. */
  lemma {:induction false} StripLeftSpec(s: string)
    ensures StripLeft(s) == s[|s| - |StripLeft(s)|..]
    ensures StripLeft(s) != [] ==> !IsSpace(StripLeft(s)[0])
    ensures forall i :: 0 <= i < |s| - |StripLeft(s)| ==> IsSpace(s[i])
  {
    if s != [] && IsSpace(s[0]) {
      StripLeftSpec(s[1..]);
    }
  }

  /** `StripRight` removes a suffix made only of whitespace and stops at the last other character. */
  lemma {:induction false} StripRightSpec(s: string)
    ensures StripRight(s) == s[..|StripRight(s)|]
    ensures StripRight(s) != [] ==> !IsSpace(StripRight(s)[|StripRight(s)| - 1])
    ensures forall i :: |StripRight(s)| <= i < |s| ==> IsSpace(s[i])
  {
    if s != [] && IsSpace(s[|s| - 1]) {
      StripRightSpec(s[..|s| - 1]);
    }
  }

  /**
   * `Strip(s)` neither starts nor ends with whitespace, and it is empty
   * exactly when `s` is all whitespace.
   */
  lemma StripSpec(s: string)
    ensures Strip(s) != [] ==> !IsSpace(Strip(s)[0]) && !IsSpace(Strip(s)[|Strip(s)| - 1])
    ensures Strip(s) == [] <==> forall i :: 0 <= i < |s| ==> IsSpace(s[i])
  {
    var t := StripLeft(s);
    var r := StripRight(t);
    StripLeftSpec(s);
    StripRightSpec(t);
    assert r != [] ==> r[0] == t[0];
    assert r == [] ==> t == [];
  }

  /** A string without whitespace at either end is its own strip. */
  lemma StripFixpoint(s: string)
    requires s == [] || (!IsSpace(s[0]) && !IsSpace(s[|s| - 1]))
    ensures Strip(s) == s
  {
    assert StripLeft(s) == s;
    assert StripRight(s) == s;
  }

  lemma StripIdempotent(s: string)
    ensures Strip(Strip(s)) == Strip(s)
  {
    StripSpec(s);
    StripFixpoint(Strip(s));
  }

  lemma StripNoSpace(s: string)
    requires NoSpace(s)
    ensures Strip(s) == s
  {
    StripFixpoint(s);
  }

  /** Whitespace in front of a text does not change what `StripLeft` leaves. */
  lemma {:induction false} StripLeftPad(l: string, y: string)
    requires forall i :: 0 <= i < |l| ==> IsSpace(l[i])
    ensures StripLeft(l + y) == StripLeft(y)
  {
    if l != [] {
      assert (l + y)[0] == l[0] && (l + y)[1..] == l[1..] + y;
      StripLeftPad(l[1..], y);
    } else {
      assert l + y == y;
    }
  }

  /** Whitespace after a text does not change what `StripRight` leaves. */
  lemma {:induction false} StripRightPad(y: string, r: string)
    requires forall i :: 0 <= i < |r| ==> IsSpace(r[i])
    ensures StripRight(y + r) == StripRight(y)
  {
    if r != [] {
      var n := |y + r|;
      assert (y + r)[n - 1] == r[|r| - 1] && (y + r)[..n - 1] == y + r[..|r| - 1];
      StripRightPad(y, r[..|r| - 1]);
    } else {
      assert y + r == y;
    }
  }

  /** A text that is whitespace, then `m`, then whitespace strips to `m` when `m` has no whitespace at its ends. */
  lemma StripUnique(a: string, m: string, b: string)
    requires forall i :: 0 <= i < |a| ==> IsSpace(a[i])
    requires forall i :: 0 <= i < |b| ==> IsSpace(b[i])
    requires m == [] || (!IsSpace(m[0]) && !IsSpace(m[|m| - 1]))
    ensures Strip(a + m + b) == m
  {
    assert a + m + b == a + (m + b);
    StripLeftPad(a, m + b);
    if m == [] {
      assert m + b == b;
      StripSpec(b);
      StripLeftPad(b, []);
      assert b + [] == b;
    } else {
      assert (m + b)[0] == m[0];
      StripRightPad(m, b);
    }
  }

  /** A text is the whitespace `Strip` drops in front, its strip, and the whitespace it drops behind. */
  lemma StripDecompose(x: string) returns (a: string, b: string)
    ensures x == a + (Strip(x) + b)
    ensures forall i :: 0 <= i < |a| ==> IsSpace(a[i])
    ensures forall i :: 0 <= i < |b| ==> IsSpace(b[i])
  {
    var t := StripLeft(x);
    var m := Strip(x);
    StripLeftSpec(x);
    StripRightSpec(t);
    a := x[..|x| - |t|];
    b := t[|m|..];
    assert x == a + t;
    assert t == m + b;
    forall i | 0 <= i < |b| ensures IsSpace(b[i]) {
      assert b[i] == t[|m| + i];
    }
  }

  /** Extra whitespace on either side of a text does not change its strip. */
  lemma StripPadded(l: string, x: string, r: string)
    requires forall i :: 0 <= i < |l| ==> IsSpace(l[i])
    requires forall i :: 0 <= i < |r| ==> IsSpace(r[i])
    ensures Strip(l + x + r) == Strip(x)
  {
    var m := Strip(x);
    var a, b := StripDecompose(x);
    StripSpec(x);
    forall i | 0 <= i < |l + a| ensures IsSpace((l + a)[i]) {
      if i >= |l| {
        assert (l + a)[i] == a[i - |l|];
      }
    }
    forall i | 0 <= i < |b + r| ensures IsSpace((b + r)[i]) {
      if i < |b| {
        assert (b + r)[i] == b[i];
      }
    }
    Regroup(l, a, m, b, r);
    StripUnique(l + a, m, b + r);
  }

  lemma Regroup(l: string, a: string, m: string, b: string, r: string)
    ensures l + (a + (m + b)) + r == (l + a) + m + (b + r)
  {
  }

  // ---------------------------------------------------------------- digits

  /** The digit characters of `s`, in order (`re.sub(r"\D+", "", s)`). */
  function KeepDigits(s: string): (r: string)
    ensures AllDigits(r) && |r| <= |s|
  {
    if s == [] then [] else (if IsDigit(s[0]) then [s[0]] else []) + KeepDigits(s[1..])
  }

  lemma {:induction false} KeepDigitsAppend(s: string, t: string)
    ensures KeepDigits(s + t) == KeepDigits(s) + KeepDigits(t)
  {
    if s != [] {
      var head := if IsDigit(s[0]) then [s[0]] else [];
      assert (s + t)[0] == s[0] && (s + t)[1..] == s[1..] + t;
      KeepDigitsAppend(s[1..], t);
      assert KeepDigits(s + t) == head + (KeepDigits(s[1..]) + KeepDigits(t));
    } else {
      assert s + t == t;
    }
  }

  lemma {:induction false} KeepDigitsOfDigits(s: string)
    requires AllDigits(s)
    ensures KeepDigits(s) == s
  {
    if s != [] {
      KeepDigitsOfDigits(s[1..]);
    }
  }

  lemma AllDigitsNoSpace(s: string)
    requires AllDigits(s)
    ensures NoSpace(s)
  {
  }

  // ---------------------------------------------------------------- numbers

  function DigitChar(d: nat): (c: char)
    requires d < 10
    ensures IsDigit(c) && c as int - '0' as int == d
  {
    ('0' as int + d) as char
  }

  /** Python's `int(s)` for a string of ASCII digits. */
  function DigitsValue(s: string): (n: nat)
    requires AllDigits(s)
  {
    if s == [] then 0 else DigitsValue(s[..|s| - 1]) * 10 + (s[|s| - 1] as int - '0' as int)
  }

  /** Python's `str(n)` for a natural number. */
  function NatToString(n: nat): (s: string)
    ensures IsDigitString(s)
  {
    if n < 10 then [DigitChar(n)] else NatToString(n / 10) + [DigitChar(n % 10)]
  }

  /** Python's `str(i)` for any integer. */
  function IntToString(i: int): (s: string)
    ensures NoSpace(s) && s != []
    ensures s[0] == '-' <==> i < 0
  {
    if i < 0 then ['-'] + NatToString(-i) else NatToString(i)
  }

  lemma {:induction false} DigitsValueOfNatToString(n: nat)
    ensures DigitsValue(NatToString(n)) == n
  {
    var s := NatToString(n);
    if n >= 10 {
      DigitsValueOfNatToString(n / 10);
      assert s[..|s| - 1] == NatToString(n / 10);
    }
  }

  lemma NatToStringInjective(a: nat, b: nat)
    requires NatToString(a) == NatToString(b)
    ensures a == b
  {
    DigitsValueOfNatToString(a);
    DigitsValueOfNatToString(b);
  }

  /** Distinct integers print differently, so `str(a) == str(b)` is `a == b`. */
  lemma IntToStringInjective(a: int, b: int)
    ensures IntToString(a) == IntToString(b) <==> a == b
  {
    if IntToString(a) == IntToString(b) {
      if a < 0 {
        assert NatToString(-a) == IntToString(a)[1..];
        NatToStringInjective(-a, -b);
      } else {
        NatToStringInjective(a, b);
      }
    }
  }

  // ---------------------------------------------------------------- split

  /** Python's `s.split(sep)` for a one-character separator. */
  function SplitOn(s: string, sep: char): (parts: seq<string>)
    ensures |parts| >= 1
    ensures forall k :: 0 <= k < |parts| ==> sep !in parts[k]
  {
    if s == [] then [[]]
    else
      var rest := SplitOn(s[1..], sep);
      if s[0] == sep then [[]] + rest else [[s[0]] + rest[0]] + rest[1..]
  }

  /** Python's `sep.join(parts)`. */
  function Join(parts: seq<string>, sep: char): string
  {
    if |parts| == 0 then []
    else if |parts| == 1 then parts[0]
    else parts[0] + [sep] + Join(parts[1..], sep)
  }

  /** Joining the pieces of a split gives the original string back. */
  lemma {:induction false} JoinSplitOn(s: string, sep: char)
    ensures Join(SplitOn(s, sep), sep) == s
  {
    if s != [] {
      var rest := SplitOn(s[1..], sep);
      JoinSplitOn(s[1..], sep);
      if s[0] == sep {
        assert s == [sep] + s[1..];
      } else if |rest| == 1 {
        assert s == [s[0]] + s[1..];
      } else {
        assert rest == [rest[0]] + rest[1..];
        assert s == [s[0]] + s[1..];
      }
    }
  }

  lemma {:induction false} SplitOnPrefix(p: string, t: string, sep: char)
    requires sep !in p
    ensures SplitOn(p + t, sep) == [p + SplitOn(t, sep)[0]] + SplitOn(t, sep)[1..]
  {
    if p != [] {
      var rest := SplitOn(t, sep);
      assert (p + t)[0] == p[0] && (p + t)[1..] == p[1..] + t;
      assert p[0] != sep;
      SplitOnPrefix(p[1..], t, sep);
      var inner := SplitOn(p[1..] + t, sep);
      assert inner[0] == p[1..] + rest[0] && inner[1..] == rest[1..];
      assert SplitOn(p + t, sep) == [[p[0]] + inner[0]] + inner[1..];
      assert [p[0]] + (p[1..] + rest[0]) == p + rest[0];
    } else {
      var rest := SplitOn(t, sep);
      assert p + t == t && p + rest[0] == rest[0];
      assert rest == [rest[0]] + rest[1..];
    }
  }

  /** Splitting a join of separator-free pieces gives the pieces back. */
  lemma {:induction false} SplitOnJoin(parts: seq<string>, sep: char)
    requires |parts| >= 1
    requires forall k :: 0 <= k < |parts| ==> sep !in parts[k]
    ensures SplitOn(Join(parts, sep), sep) == parts
  {
    if |parts| == 1 {
      SplitOnPrefix(parts[0], [], sep);
      assert parts[0] + [] == parts[0];
    } else {
      var tail := Join(parts[1..], sep);
      SplitOnJoin(parts[1..], sep);
      assert Join(parts, sep) == parts[0] + ([sep] + tail);
      SplitOnPrefix(parts[0], [sep] + tail, sep);
      assert ([sep] + tail)[0] == sep && ([sep] + tail)[1..] == tail;
      assert SplitOn([sep] + tail, sep) == [[]] + parts[1..];
      assert parts[0] + [] == parts[0];
      assert parts == [parts[0]] + parts[1..];
    }
  }

  /** Text put in front of the first piece ends up in front of the join. */
  lemma JoinPrependFirst(l: string, parts: seq<string>, sep: char)
    requires |parts| >= 1
    ensures Join([l + parts[0]] + parts[1..], sep) == l + Join(parts, sep)
  {
    var q := [l + parts[0]] + parts[1..];
    assert q[0] == l + parts[0] && q[1..] == parts[1..];
  }

  /** Text put after the last piece ends up after the join. */
  lemma {:induction false} JoinAppendLast(parts: seq<string>, r: string, sep: char)
    requires |parts| >= 1
    ensures Join(parts[..|parts| - 1] + [parts[|parts| - 1] + r], sep) == Join(parts, sep) + r
  {
    var n := |parts|;
    var q := parts[..n - 1] + [parts[n - 1] + r];
    if n == 1 {
      assert q == [parts[0] + r];
    } else {
      JoinAppendLast(parts[1..], r, sep);
      assert q[0] == parts[0];
      assert q[1..] == parts[1..][..n - 2] + [parts[1..][n - 2] + r];
      assert Join(q, sep) == parts[0] + [sep] + Join(q[1..], sep);
    }
  }

  /** A join of whitespace-free pieces around a non-space separator has no whitespace. */
  lemma {:induction false} JoinNoSpace(parts: seq<string>, sep: char)
    requires !IsSpace(sep)
    requires forall k :: 0 <= k < |parts| ==> NoSpace(parts[k])
    ensures NoSpace(Join(parts, sep))
  {
    if |parts| > 1 {
      JoinNoSpace(parts[1..], sep);
    }
  }
}
