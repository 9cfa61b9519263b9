/** Python's `str.strip()` with no argument, as the calculator applies it to
    every stored vendor part number and to the part number the user types. */
module Text {

  /** The characters for which Python's `str.isspace()` holds: the ASCII
      controls TAB..CR and FS..US, SPACE, NEL, NO-BREAK SPACE and the Unicode
      space separators and line/paragraph separators. */
  predicate IsSpace(c: char) {
    ('\t' <= c <= '\r') || ('\U{1C}' <= c <= '\U{1F}') || c == ' '
    || c == '\U{85}' || c == '\U{A0}' || c == '\U{1680}'
    || ('\U{2000}' <= c <= '\U{200A}') || c == '\U{2028}' || c == '\U{2029}'
    || c == '\U{202F}' || c == '\U{205F}' || c == '\U{3000}'
  }

  /** What IsSpace decides for the characters a part number is made of:
      plain whitespace and NO-BREAK SPACE are stripped; letters, digits,
      '-' and the zero-width space (not whitespace to Python) are kept. */
  lemma IsSpaceOnPartNumberCharacters(c: char)
    ensures c == ' ' || c == '\t' || c == '\n' || c == '\r' || c == '\U{A0}' ==> IsSpace(c)
    ensures '0' <= c <= '9' || 'a' <= c <= 'z' || 'A' <= c <= 'Z' || c == '-' || c == '\U{200B}' ==> !IsSpace(c)
  {
  }

  predicate AllSpace(s: string) {
    forall i :: 0 <= i < |s| ==> IsSpace(s[i])
  }

  lemma AllSpaceConcat(a: string, b: string)
    ensures AllSpace(a + b) <==> AllSpace(a) && AllSpace(b)
  {
    if AllSpace(a) && AllSpace(b) {
      forall i | 0 <= i < |a + b| ensures IsSpace((a + b)[i]) {
        if i >= |a| { assert (a + b)[i] == b[i - |a|]; }
      }
    }
    if AllSpace(a + b) {
      forall i | 0 <= i < |a| ensures IsSpace(a[i]) {
        assert a[i] == (a + b)[i];
      }
      forall i | 0 <= i < |b| ensures IsSpace(b[i]) {
        assert b[i] == (a + b)[|a| + i];
      }
    }
  }

  /** Neither the first nor the last character is whitespace. */
  predicate IsStripped(s: string) {
    s == [] || (!IsSpace(s[0]) && !IsSpace(s[|s| - 1]))
  }

  /** Drops the leading whitespace: the result is a suffix of `s` that does
      not start with whitespace (TrimStartDropsSpace: what went was all
      whitespace). */
  function TrimStart(s: string): (r: string)
    ensures |r| <= |s| && r == s[|s| - |r|..]
    ensures r == [] || !IsSpace(r[0])
  {
    if s != [] && IsSpace(s[0]) then TrimStart(s[1..]) else s
  }

  lemma {:induction false} TrimStartDropsSpace(s: string)
    ensures AllSpace(s[..|s| - |TrimStart(s)|])
  {
    if s != [] && IsSpace(s[0]) {
      TrimStartDropsSpace(s[1..]);
      var k := |s| - |TrimStart(s)|;
      assert s[..k] == [s[0]] + s[1..][..k - 1];
      AllSpaceConcat([s[0]], s[1..][..k - 1]);
    }
  }

  /** Drops the trailing whitespace: the result is a prefix of `s` that does
      not end with whitespace (TrimEndDropsSpace: what went was all
      whitespace). */
  function TrimEnd(s: string): (r: string)
    ensures |r| <= |s| && r == s[..|r|]
    ensures r == [] || !IsSpace(r[|r| - 1])
  {
    if s != [] && IsSpace(s[|s| - 1]) then TrimEnd(s[..|s| - 1]) else s
  }

  lemma {:induction false} TrimEndDropsSpace(s: string)
    ensures AllSpace(s[|TrimEnd(s)|..])
  {
    if s != [] && IsSpace(s[|s| - 1]) {
      var u := s[..|s| - 1];
      TrimEndDropsSpace(u);
      var k := |TrimEnd(s)|;
      assert s[k..] == u[k..] + [s[|s| - 1]];
      AllSpaceConcat(u[k..], [s[|s| - 1]]);
    }
  }

  /** `s.strip()`: the result has no whitespace at either end. */
  function Strip(s: string): (r: string)
    ensures IsStripped(r)
  {
    var t := TrimStart(s);
    var r := TrimEnd(t);
    assert r != [] ==> r[0] == t[0];
    r
  }

  /** Leading whitespace in front of a part that does not start with
      whitespace is exactly what TrimStart removes. */
  lemma {:induction false} TrimStartAfterSpace(p: string, m: string)
    requires AllSpace(p)
    requires m == [] || !IsSpace(m[0])
    ensures TrimStart(p + m) == m
  {
    if p == [] {
      assert p + m == m;
    } else {
      assert (p + m)[0] == p[0];
      assert (p + m)[1..] == p[1..] + m;
      TrimStartAfterSpace(p[1..], m);
    }
  }

  /** Trailing whitespace behind a part that does not end with whitespace
      is exactly what TrimEnd removes. */
  lemma {:induction false} TrimEndBeforeSpace(m: string, q: string)
    requires AllSpace(q)
    requires m == [] || !IsSpace(m[|m| - 1])
    ensures TrimEnd(m + q) == m
  {
    if q == [] {
      assert m + q == m;
    } else {
      var n := |m + q|;
      assert (m + q)[n - 1] == q[|q| - 1];
      assert (m + q)[..n - 1] == m + q[..|q| - 1];
      TrimEndBeforeSpace(m, q[..|q| - 1]);
    }
  }

  /** Stripping a stripped string padded with whitespace on both sides gives
      back that string: Strip is determined by the non-space core alone. */
  lemma StripPadded(p: string, m: string, q: string)
    requires AllSpace(p) && AllSpace(q) && IsStripped(m)
    ensures Strip(p + m + q) == m
  {
    if m == [] {
      assert p + m + q == (p + q) + [];
      AllSpaceConcat(p, q);
      TrimStartAfterSpace(p + q, []);
    } else {
      assert p + m + q == p + (m + q);
      assert (m + q)[0] == m[0];
      TrimStartAfterSpace(p, m + q);
      TrimEndBeforeSpace(m, q);
    }
  }

  /** Leading whitespace in front of anything is skipped by TrimStart. */
  lemma {:induction false} TrimStartSkipsSpace(w: string, x: string)
    requires AllSpace(w)
    ensures TrimStart(w + x) == TrimStart(x)
  {
    if w != [] {
      assert (w + x)[0] == w[0];
      assert (w + x)[1..] == w[1..] + x;
      TrimStartSkipsSpace(w[1..], x);
    } else {
      assert w + x == x;
    }
  }

  /** Trailing whitespace behind anything is skipped by TrimEnd. */
  lemma {:induction false} TrimEndSkipsSpace(x: string, w: string)
    requires AllSpace(w)
    ensures TrimEnd(x + w) == TrimEnd(x)
  {
    if w != [] {
      var n := |x + w|;
      assert (x + w)[n - 1] == w[|w| - 1];
      assert (x + w)[..n - 1] == x + w[..|w| - 1];
      TrimEndSkipsSpace(x, w[..|w| - 1]);
    } else {
      assert x + w == x;
    }
  }

  /** Text appended after a non-blank string survives TrimStart untouched. */
  lemma {:induction false} TrimStartAppend(x: string, y: string)
    requires TrimStart(x) != []
    ensures TrimStart(x + y) == TrimStart(x) + y
  {
    assert x != [];
    assert (x + y)[0] == x[0];
    if IsSpace(x[0]) {
      assert (x + y)[1..] == x[1..] + y;
      TrimStartAppend(x[1..], y);
    }
  }

  /** `s.strip()` is empty exactly when `s` is nothing but whitespace, which
      is when the calculator treats the typed part number as missing. */
  lemma StripEmptyIffAllSpace(s: string)
    ensures Strip(s) == [] <==> AllSpace(s)
  {
    var t := TrimStart(s);
    TrimStartDropsSpace(s);
    if Strip(s) == [] {
      TrimEndDropsSpace(t);
      assert t[0..] == t;
      if t != [] {
        assert false;
      }
      assert s[..|s|] == s;
    }
    if AllSpace(s) {
      assert s + [] == s;
      TrimStartSkipsSpace(s, []);
    }
  }

  /** Two inputs that differ only in leading and trailing whitespace strip
      to the same string. */
  lemma StripIgnoresPadding(w1: string, s: string, w2: string)
    requires AllSpace(w1) && AllSpace(w2)
    ensures Strip(w1 + s + w2) == Strip(s)
  {
    assert w1 + s + w2 == w1 + (s + w2);
    TrimStartSkipsSpace(w1, s + w2);
    if TrimStart(s) != [] {
      TrimStartAppend(s, w2);
      TrimEndSkipsSpace(TrimStart(s), w2);
    } else {
      StripEmptyIffAllSpace(s);
      AllSpaceConcat(s, w2);
      assert s + w2 + [] == s + w2;
      TrimStartSkipsSpace(s + w2, []);
    }
  }

  /** A string without whitespace at its ends is its own stripped form. */
  lemma StrippedIsFixed(m: string)
    requires IsStripped(m)
    ensures Strip(m) == m
  {
    assert [] + m + [] == m;
    StripPadded([], m, []);
  }

  /** Stripping twice is stripping once. */
  lemma StripIdempotent(s: string)
    ensures Strip(Strip(s)) == Strip(s)
  {
    StrippedIsFixed(Strip(s));
  }
}
