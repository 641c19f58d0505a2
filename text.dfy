/**
 * String helpers the front end takes from JavaScript: `toLowerCase`
 * (restricted to ASCII letters), `includes`, the `\s` character class
 * (restricted to the ASCII whitespace characters) and the
 * `replace(/\s+/g, '-')` rewrite.
 */
module Text {

  predicate IsUpper(c: char) { 'A' <= c <= 'Z' }

  function LowerChar(c: char): (r: char)
    ensures !IsUpper(r)
    ensures IsUpper(c) ==> r as int == c as int + 32
    ensures !IsUpper(c) ==> r == c
  {
    if IsUpper(c) then (c as int + 32) as char else c
  }

  /** ASCII `toLowerCase`, character by character. */
  function ToLower(s: string): (r: string)
    ensures |r| == |s|
    ensures forall i :: 0 <= i < |s| ==> r[i] == LowerChar(s[i])
  {
    if s == [] then [] else [LowerChar(s[0])] + ToLower(s[1..])
  }

  predicate NoUpper(s: string) {
    forall i :: 0 <= i < |s| ==> !IsUpper(s[i])
  }

  lemma ToLowerFixesLowerCase(s: string)
    requires NoUpper(s)
    ensures ToLower(s) == s
  {
  }

  lemma ToLowerIdempotent(s: string)
    ensures NoUpper(ToLower(s))
    ensures ToLower(ToLower(s)) == ToLower(s)
  {
    ToLowerFixesLowerCase(ToLower(s));
  }

  predicate IsPrefix(p: string, s: string) {
    |p| <= |s| && s[..|p|] == p
  }

  /** JavaScript's `s.includes(sub)`: `sub` occurs at some position of `s`. */
  function Contains(s: string, sub: string): (r: bool)
    ensures r <==> exists i :: 0 <= i <= |s| - |sub| && IsPrefix(sub, s[i..])
    decreases |s|
  {
    if IsPrefix(sub, s) then
      assert IsPrefix(sub, s[0..]);
      true
    else if |s| == 0 then
      false
    else
      var rest := Contains(s[1..], sub);
      assert forall i :: 1 <= i <= |s| ==> s[i..] == s[1..][i - 1..];
      assert rest ==> exists i :: 1 <= i <= |s| - |sub| && IsPrefix(sub, s[i..]);
      rest
  }

  lemma ContainsItself(s: string)
    ensures Contains(s, s)
  {
    assert IsPrefix(s, s[0..]);
  }

  /** The characters `\s` matches, restricted to ASCII. */
  predicate IsWhitespace(c: char) {
    c == ' ' || c == '\t' || c == '\n' || c == '\r' || c == '\U{000B}' || c == '\U{000C}'
  }

  predicate NoWhitespace(s: string) {
    forall i :: 0 <= i < |s| ==> !IsWhitespace(s[i])
  }

  /** Drops the whitespace run at the front of `s`: what `\s+` consumes. */
  function DropWhitespace(s: string): (r: string)
    ensures |r| <= |s| && r == s[|s| - |r|..]
    ensures r == [] || !IsWhitespace(r[0])
    ensures forall i :: 0 <= i < |s| - |r| ==> IsWhitespace(s[i])
  {
    if s != [] && IsWhitespace(s[0]) then DropWhitespace(s[1..]) else s
  }

  /** `s.replace(/\s+/g, '-')`: every maximal whitespace run becomes one dash. */
  function DashWhitespace(s: string): (r: string)
    ensures |r| <= |s|
    ensures NoWhitespace(r)
    ensures forall i :: 0 <= i < |r| ==> r[i] == '-' || r[i] in s
    decreases |s|
  {
    if s == [] then []
    else if IsWhitespace(s[0]) then ['-'] + DashWhitespace(DropWhitespace(s[1..]))
    else [s[0]] + DashWhitespace(s[1..])
  }

  /** The whitespace characters are fixed by lower-casing. */
  lemma ToLowerFixesWhitespace(w: string)
    requires forall i :: 0 <= i < |w| ==> IsWhitespace(w[i])
    ensures ToLower(w) == w
  {
    ToLowerFixesLowerCase(w);
  }

  /** Lower-cased text has whitespace exactly where the original has. */
  lemma ToLowerKeepsNoWhitespace(s: string)
    requires NoWhitespace(s)
    ensures NoWhitespace(ToLower(s))
  {
  }

  /** A whole whitespace run in front of non-whitespace is dropped, and nothing more. */
  lemma {:induction false} DropWhitespaceRun(w: string, q: string)
    requires forall i :: 0 <= i < |w| ==> IsWhitespace(w[i])
    requires q == [] || !IsWhitespace(q[0])
    ensures DropWhitespace(w + q) == q
    decreases |w|
  {
    if w == [] {
      assert w + q == q;
    } else {
      assert (w + q)[0] == w[0] && (w + q)[1..] == w[1..] + q;
      DropWhitespaceRun(w[1..], q);
    }
  }

  /** A maximal whitespace run, however long, becomes a single dash. */
  lemma DashWhitespaceRun(w: string, q: string)
    requires w != [] && forall i :: 0 <= i < |w| ==> IsWhitespace(w[i])
    requires q == [] || !IsWhitespace(q[0])
    ensures DashWhitespace(w + q) == ['-'] + DashWhitespace(q)
  {
    var s := w + q;
    assert s[0] == w[0] && s[1..] == w[1..] + q;
    DropWhitespaceRun(w[1..], q);
    DashWhitespaceAtWhitespace(s);
  }

  lemma DashWhitespaceAtWhitespace(s: string)
    requires s != [] && IsWhitespace(s[0])
    ensures DashWhitespace(s) == ['-'] + DashWhitespace(DropWhitespace(s[1..]))
  {
  }

  /** A character other than whitespace is copied through unchanged. */
  lemma DashWhitespaceKeepsPlainChar(c: char, s: string)
    requires !IsWhitespace(c)
    ensures DashWhitespace([c] + s) == [c] + DashWhitespace(s)
  {
    assert ([c] + s)[0] == c && ([c] + s)[1..] == s;
  }

  /** Text without whitespace is copied through unchanged and in order. */
  lemma {:induction false} DashWhitespaceKeepsPlainPrefix(p: string, s: string)
    requires NoWhitespace(p)
    ensures DashWhitespace(p + s) == p + DashWhitespace(s)
    decreases |p|
  {
    if p == [] {
      assert p + s == s;
    } else {
      var rest := p[1..] + s;
      assert p + s == [p[0]] + rest;
      DashWhitespaceKeepsPlainChar(p[0], rest);
      DashWhitespaceKeepsPlainPrefix(p[1..], s);
      assert p == [p[0]] + p[1..];
    }
  }

  /** Lower-casing two words around a whitespace run keeps the run. */
  lemma ToLowerOfTwoWords(a: string, w: string, b: string)
    requires forall i :: 0 <= i < |w| ==> IsWhitespace(w[i])
    ensures ToLower(a + w + b) == ToLower(a) + (w + ToLower(b))
  {
    var s := a + w + b;
    var l, r := ToLower(s), ToLower(a) + (w + ToLower(b));
    forall i | 0 <= i < |s| ensures l[i] == r[i] {
      if i < |a| {
        assert s[i] == a[i];
      } else if i < |a| + |w| {
        assert s[i] == w[i - |a|];
      } else {
        assert s[i] == b[i - |a| - |w|];
      }
    }
    assert l == r;
  }

  /** Two words around a whitespace run are joined by a single dash. */
  lemma DashWhitespaceOfTwoWords(a: string, w: string, b: string)
    requires NoWhitespace(a) && NoWhitespace(b)
    requires w != [] && forall i :: 0 <= i < |w| ==> IsWhitespace(w[i])
    ensures DashWhitespace(a + (w + b)) == a + ['-'] + b
  {
    var tail := w + b;
    assert DashWhitespace(tail) == ['-'] + b by {
      DashWhitespaceRun(w, b);
      DashWhitespaceFixesPlainText(b);
    }
    DashWhitespaceKeepsPlainPrefix(a, tail);
    assert a + (['-'] + b) == a + ['-'] + b;
  }

  lemma {:induction false} DashWhitespaceFixesPlainText(s: string)
    requires NoWhitespace(s)
    ensures DashWhitespace(s) == s
  {
    if s != [] {
      DashWhitespaceFixesPlainText(s[1..]);
    }
  }
}
