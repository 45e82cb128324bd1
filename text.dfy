/** Character classes and the few string operations the tracker and the
    dashboard rely on: Python's `str.strip()`, the regular-expression classes
    `\d`, `\w` and `\s`, and the case-insensitive substring test of
    `Series.str.contains(..., case=False)`. Only the ASCII part of Python's
    Unicode classes is modelled. */
module Text {

  /** `\d` (ASCII digits). */
  predicate IsDigit(c: char) {
    '0' <= c <= '9'
  }

  /** `\s` and the characters removed by `str.strip()`, in ASCII: the space,
      tab, line feed, vertical tab, form feed and carriage return, and the
      four separators U+001C to U+001F. */
  predicate IsSpace(c: char) {
    c == ' ' || c == '\t' || c == '\n' || c == '\r' || c == '\U{B}' || c == '\U{C}' || '\U{1C}' <= c <= '\U{1F}'
  }

  /** `\w` (ASCII letters, digits and the underscore). */
  predicate IsWordChar(c: char) {
    ('a' <= c <= 'z') || ('A' <= c <= 'Z') || IsDigit(c) || c == '_'
  }

  predicate NoSpaceAtEnds(s: string) {
    s == [] || (!IsSpace(s[0]) && !IsSpace(s[|s| - 1]))
  }

  /** `s` occurs in `t` as a contiguous block at position `i`. */
  predicate InfixAt(s: string, t: string, i: nat) {
    i + |s| <= |t| && t[i..i + |s|] == s
  }

  /** Removes leading whitespace. */
  function TrimStart(s: string): string {
    if s != [] && IsSpace(s[0]) then TrimStart(s[1..]) else s
  }

  /** TrimStart removes a run of whitespace from the front, and nothing
      else. */
  lemma {:induction false} TrimStartFacts(s: string)
    ensures |TrimStart(s)| <= |s| && TrimStart(s) == s[|s| - |TrimStart(s)|..]
    ensures TrimStart(s) == [] || !IsSpace(TrimStart(s)[0])
    ensures forall i :: 0 <= i < |s| - |TrimStart(s)| ==> IsSpace(s[i])
  {
    if s != [] && IsSpace(s[0]) {
      TrimStartFacts(s[1..]);
      var r := TrimStart(s[1..]);
      assert s[1..][|s| - 1 - |r|..] == s[|s| - |r|..];
      forall i | 1 <= i < |s| - |r| ensures IsSpace(s[i]) {
        assert s[i] == s[1..][i - 1];
      }
    }
  }

  /** Removes trailing whitespace. */
  function TrimEnd(s: string): string {
    if s != [] && IsSpace(s[|s| - 1]) then TrimEnd(s[..|s| - 1]) else s
  }

  /** TrimEnd removes a run of whitespace from the back, and nothing else. */
  lemma {:induction false} TrimEndFacts(s: string)
    ensures |TrimEnd(s)| <= |s| && TrimEnd(s) == s[..|TrimEnd(s)|]
    ensures TrimEnd(s) == [] || !IsSpace(TrimEnd(s)[|TrimEnd(s)| - 1])
    ensures forall i :: |TrimEnd(s)| <= i < |s| ==> IsSpace(s[i])
  {
    if s != [] && IsSpace(s[|s| - 1]) {
      TrimEndFacts(s[..|s| - 1]);
      var r := TrimEnd(s[..|s| - 1]);
      assert s[..|s| - 1][..|r|] == s[..|r|];
      forall i | |r| <= i < |s| - 1 ensures IsSpace(s[i]) {
        assert s[i] == s[..|s| - 1][i];
      }
    }
  }

  /** TrimStart removes exactly a leading block of whitespace that is not
      followed by more whitespace. */
  lemma {:induction false} TrimStartPrefix(pad: string, rest: string)
    requires forall i :: 0 <= i < |pad| ==> IsSpace(pad[i])
    requires rest == [] || !IsSpace(rest[0])
    ensures TrimStart(pad + rest) == rest
  {
    if pad != [] {
      assert (pad + rest)[1..] == pad[1..] + rest;
      TrimStartPrefix(pad[1..], rest);
    } else {
      assert pad + rest == rest;
    }
  }

  /** TrimEnd removes exactly a trailing block of whitespace that is not
      preceded by more whitespace. */
  lemma {:induction false} TrimEndSuffix(rest: string, pad: string)
    requires forall i :: 0 <= i < |pad| ==> IsSpace(pad[i])
    requires rest == [] || !IsSpace(rest[|rest| - 1])
    ensures TrimEnd(rest + pad) == rest
    decreases |pad|
  {
    if pad != [] {
      assert (rest + pad)[..|rest + pad| - 1] == rest + pad[..|pad| - 1];
      TrimEndSuffix(rest, pad[..|pad| - 1]);
    } else {
      assert rest + pad == rest;
    }
  }

  /** Python's `str.strip()`. */
  function Strip(s: string): string {
    TrimEnd(TrimStart(s))
  }

  /** What Strip leaves has no whitespace at its ends, and it is the block
      of `s` between the whitespace at its two ends. */
  lemma StripFacts(s: string)
    ensures NoSpaceAtEnds(Strip(s))
    ensures exists i: nat ::
      InfixAt(Strip(s), s, i) &&
      (forall j :: 0 <= j < i ==> IsSpace(s[j])) &&
      (forall j :: i + |Strip(s)| <= j < |s| ==> IsSpace(s[j]))
  {
    var a := TrimStart(s);
    var r := TrimEnd(a);
    TrimStartFacts(s);
    TrimEndFacts(a);
    if r != [] {
      assert r[0] == a[0];
    }
    var i := |s| - |a|;
    assert s[i..][..|r|] == s[i..i + |r|];
    assert InfixAt(r, s, i);
    forall j | i + |r| <= j < |s| ensures IsSpace(s[j]) {
      assert s[j] == a[j - i];
    }
  }

  /** ASCII case folding, as `re.IGNORECASE` does for ASCII letters. */
  function Lower(c: char): (r: char)
    ensures 'A' <= c <= 'Z' ==> 'a' <= r <= 'z'
    ensures !('A' <= c <= 'Z') ==> r == c
  {
    if 'A' <= c <= 'Z' then (c as int + 32) as char else c
  }

  function LowerString(s: string): (r: string)
    ensures |r| == |s|
  {
    if s == [] then [] else [Lower(s[0])] + LowerString(s[1..])
  }

  /** `needle` occurs somewhere in `hay`. */
  predicate Contains(hay: string, needle: string)
    decreases |hay|
  {
    needle <= hay || (hay != [] && Contains(hay[1..], needle))
  }

  /** Contains holds exactly when the needle occurs at some position. */
  lemma {:induction false} ContainsIff(hay: string, needle: string)
    ensures Contains(hay, needle) <==> exists i: nat :: InfixAt(needle, hay, i)
    decreases |hay|
  {
    if Contains(hay, needle) {
      if needle <= hay {
        assert InfixAt(needle, hay, 0);
      } else {
        ContainsIff(hay[1..], needle);
        var i: nat :| InfixAt(needle, hay[1..], i);
        TailSlice(hay, i, |needle|);
        assert InfixAt(needle, hay, i + 1);
      }
    }
    if exists i: nat :: InfixAt(needle, hay, i) {
      var i: nat :| InfixAt(needle, hay, i);
      if i == 0 {
        assert needle <= hay;
      } else {
        TailSlice(hay, i - 1, |needle|);
        assert InfixAt(needle, hay[1..], i - 1);
        ContainsIff(hay[1..], needle);
      }
    }
  }

  lemma TailSlice(t: string, i: nat, n: nat)
    requires i + n < |t|
    ensures t[1..][i..i + n] == t[i + 1..i + 1 + n]
  {
    var a, b := t[1..][i..i + n], t[i + 1..i + 1 + n];
    forall j | 0 <= j < n ensures a[j] == b[j] {
      assert t[1..][i + j] == t[i + 1 + j];
    }
  }

  /** The empty needle occurs in every string. */
  lemma EmptyNeedle(hay: string)
    ensures Contains(hay, [])
  {
    assert [] <= hay;
  }

  /** `str.contains(needle, case=False)` for a literal needle. */
  predicate ContainsIgnoreCase(hay: string, needle: string) {
    Contains(LowerString(hay), LowerString(needle))
  }
}
