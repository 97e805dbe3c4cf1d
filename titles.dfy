/**
 * The deduplication key of a paper title.
 *
 * main.py computes it everywhere as
 * `sub("[^a-z0-9]+", "_", normalize("NFKC", t).lower())`.  The Unicode step
 * (NFKC normalisation followed by `lower()`) is library behaviour and is
 * taken as a parameter `fold`; the regular-expression step is `Collapse`,
 * modelled exactly: every maximal run of characters outside `[a-z0-9]`
 * becomes a single `_`.
 */
module Titles {

  /** The characters the pattern `[^a-z0-9]+` leaves in place. */
  predicate IsKeyChar(c: char) {
    'a' <= c <= 'z' || '0' <= c <= '9'
  }

  /** Every character is a key character or the separator `_`. */
  predicate InKeyAlphabet(s: string) {
    forall i :: 0 <= i < |s| ==> IsKeyChar(s[i]) || s[i] == '_'
  }

  /** No two separators stand next to each other. */
  predicate NoDoubleSeparator(s: string) {
    forall i :: 0 < i < |s| ==> !(s[i - 1] == '_' && s[i] == '_')
  }

  /** The shape of every key `Collapse` produces. */
  predicate IsKey(s: string) {
    InKeyAlphabet(s) && NoDoubleSeparator(s)
  }

  /** No character of `x` is a key character. */
  predicate AllSeparators(x: string) {
    forall i :: 0 <= i < |x| ==> !IsKeyChar(x[i])
  }

  /** A non-empty run of characters that the pattern replaces. */
  predicate IsRun(x: string) {
    x != [] && AllSeparators(x)
  }

  /** The key characters of `s`, in order. */
  function KeyChars(s: string): string {
    if s == [] then [] else (if IsKeyChar(s[0]) then [s[0]] else []) + KeyChars(s[1..])
  }

  /** Drops the leading run of non-key characters, i.e. the rest of a match. */
  function SkipRun(s: string): (r: string)
    ensures |r| <= |s|
    ensures r == [] || IsKeyChar(r[0])
  {
    if s != [] && !IsKeyChar(s[0]) then SkipRun(s[1..]) else s
  }

  /** `re.sub("[^a-z0-9]+", "_", s)`: each maximal run of non-key characters becomes one `_`. */
  function Collapse(s: string): (r: string)
    decreases |s|
    ensures IsKey(r)
    ensures |r| <= |s|
    ensures r == [] <==> s == []
    ensures s != [] ==> r[0] == if IsKeyChar(s[0]) then s[0] else '_'
  {
    if s == [] then []
    else if IsKeyChar(s[0]) then [s[0]] + Collapse(s[1..])
    else "_" + Collapse(SkipRun(s[1..]))
  }

  /**
   * The dedup key of a title; `fold` stands for NFKC normalisation followed
   * by `lower()`.  A key contains only `a-z`, `0-9` and `_`, never two `_` in
   * a row, is no longer than the folded title and is empty only when it is.
   */
  function Key(fold: string -> string, title: string): (r: string)
    ensures IsKey(r)
    ensures |r| <= |fold(title)| && (r == [] <==> fold(title) == [])
  {
    Collapse(fold(title))
  }

  /** `Collapse` leaves every string of key shape unchanged. */
  lemma {:induction false} CollapseFixesKeys(s: string)
    requires IsKey(s)
    ensures Collapse(s) == s
  {
    if s != [] {
      assert IsKey(s[1..]) by {
        assert forall i :: 0 < i < |s[1..]| ==> s[1..][i - 1] == s[i] && s[1..][i] == s[i + 1];
      }
      if IsKeyChar(s[0]) {
        CollapseFixesKeys(s[1..]);
      } else {
        assert s[0] == '_';
        if |s| > 1 {
          assert s[1] != '_';
          assert IsKeyChar(s[1]);
        }
        assert SkipRun(s[1..]) == s[1..];
        CollapseFixesKeys(s[1..]);
      }
    }
  }

  /** Applying the collapse a second time changes nothing. */
  lemma CollapseIdempotent(s: string)
    ensures Collapse(Collapse(s)) == Collapse(s)
  {
    CollapseFixesKeys(Collapse(s));
  }

  /**
   * The key is idempotent as soon as the Unicode step leaves the key alone,
   * which NFKC and `lower()` do on strings over `[a-z0-9_]`.
   */
  lemma KeyIdempotent(fold: string -> string, title: string)
    requires fold(Key(fold, title)) == Key(fold, title)
    ensures Key(fold, Key(fold, title)) == Key(fold, title)
  {
    CollapseIdempotent(fold(title));
  }

  lemma {:induction false} KeyCharsOfSkipRun(s: string)
    ensures KeyChars(SkipRun(s)) == KeyChars(s)
  {
    if s != [] && !IsKeyChar(s[0]) {
      KeyCharsOfSkipRun(s[1..]);
    }
  }

  /** The collapse keeps every letter and digit, in order, and adds none. */
  lemma {:induction false} CollapseKeepsKeyChars(s: string)
    decreases |s|
    ensures KeyChars(Collapse(s)) == KeyChars(s)
  {
    if s != [] {
      if IsKeyChar(s[0]) {
        CollapseKeepsKeyChars(s[1..]);
        assert ([s[0]] + Collapse(s[1..]))[1..] == Collapse(s[1..]);
      } else {
        var rest := SkipRun(s[1..]);
        CollapseKeepsKeyChars(rest);
        KeyCharsOfSkipRun(s[1..]);
        assert ("_" + Collapse(rest))[1..] == Collapse(rest);
      }
    }
  }

  lemma {:induction false} SkipRunAppend(u: string, v: string)
    ensures SkipRun(u + v) == if SkipRun(u) == [] then SkipRun(v) else SkipRun(u) + v
  {
    if u == [] {
      assert u + v == v;
    } else {
      assert (u + v)[0] == u[0];
      if !IsKeyChar(u[0]) {
        assert (u + v)[1..] == u[1..] + v;
        SkipRunAppend(u[1..], v);
      }
    }
  }

  lemma {:induction false} SkipRunOfSeparators(x: string)
    requires AllSeparators(x)
    ensures SkipRun(x) == []
  {
    if x != [] {
      assert AllSeparators(x[1..]) by {
        assert forall i :: 0 <= i < |x[1..]| ==> x[1..][i] == x[i + 1];
      }
      SkipRunOfSeparators(x[1..]);
    }
  }

  lemma SkipRunOfRun(x: string, v: string)
    requires AllSeparators(x)
    ensures SkipRun(x + v) == SkipRun(v)
  {
    SkipRunAppend(x, v);
    SkipRunOfSeparators(x);
  }

  /**
   * Titles that differ only in which run of punctuation separates two parts
   * get the same key: replacing one non-empty run by another leaves the
   * collapse unchanged, wherever the run stands.
   */
  lemma {:induction false} RunsAreInterchangeable(a: string, x: string, y: string, b: string)
    requires IsRun(x) && IsRun(y)
    decreases |a|
    ensures Collapse(a + x + b) == Collapse(a + y + b)
  {
    if a == [] {
      assert a + x + b == x + b && (x + b)[1..] == x[1..] + b;
      assert a + y + b == y + b && (y + b)[1..] == y[1..] + b;
      if x[1..] != [] { SkipRunOfRun(x[1..], b); }
      if y[1..] != [] { SkipRunOfRun(y[1..], b); }
    } else {
      assert (a + x + b)[0] == a[0] && (a + y + b)[0] == a[0];
      assert (a + x + b)[1..] == a[1..] + (x + b);
      assert (a + y + b)[1..] == a[1..] + (y + b);
      if IsKeyChar(a[0]) {
        assert a[1..] + (x + b) == a[1..] + x + b;
        assert a[1..] + (y + b) == a[1..] + y + b;
        RunsAreInterchangeable(a[1..], x, y, b);
      } else {
        SkipRunAppend(a[1..], x + b);
        SkipRunAppend(a[1..], y + b);
        var a' := SkipRun(a[1..]);
        if a' == [] {
          SkipRunOfRun(x, b);
          SkipRunOfRun(y, b);
        } else {
          assert a' + (x + b) == a' + x + b;
          assert a' + (y + b) == a' + y + b;
          RunsAreInterchangeable(a', x, y, b);
        }
      }
    }
  }

  /**
   * A trailing punctuation mark survives as a trailing `_`, so the key of
   * "foo-bar!" is not the key of "foo bar".
   */
  lemma TrailingRunKept()
    ensures Collapse("foo-bar!") == "foo_bar_"
  {
    DashBangKept();
    assert Collapse("o-bar!") == "o" + Collapse("-bar!");
    assert Collapse("oo-bar!") == "o" + Collapse("o-bar!");
    assert Collapse("foo-bar!") == "f" + Collapse("oo-bar!");
  }

  lemma BangKept()
    ensures Collapse("bar!") == "bar_"
  {
    var bang := Collapse("!");
    assert SkipRun("") == "";
    assert bang == "_";
    assert Collapse("r!") == "r" + bang;
    assert Collapse("ar!") == "a" + Collapse("r!");
    assert Collapse("bar!") == "b" + Collapse("ar!");
  }

  lemma DashBangKept()
    ensures Collapse("-bar!") == "_bar_"
  {
    BangKept();
    assert SkipRun("bar!") == "bar!";
    assert Collapse("-bar!") == "_" + Collapse("bar!");
  }

  lemma NoTrailingRun()
    ensures Collapse("foo bar") == "foo_bar"
  {
    assert Collapse("r") == "r";
    assert Collapse("ar") == "a" + Collapse("r");
    assert Collapse("bar") == "b" + Collapse("ar");
    assert SkipRun("bar") == "bar";
    assert Collapse(" bar") == "_" + Collapse("bar");
    assert Collapse("o bar") == "o" + Collapse(" bar");
    assert Collapse("oo bar") == "o" + Collapse("o bar");
    assert Collapse("foo bar") == "f" + Collapse("oo bar");
  }
}
