/**
 * The few Ruby string operations the routing core relies on: `Array#join`
 * with a one-character separator, `String#split` on a one-character
 * separator (which drops trailing empty fields), and `String#strip`.
 */
module Strings {

  /** `xs.join(sep)` */
  function Join(xs: seq<string>, sep: char): string
  {
    if |xs| == 0 then ""
    else if |xs| == 1 then xs[0]
    else xs[0] + [sep] + Join(xs[1..], sep)
  }

  /** Every field between two separators, empty ones included: the split that `Join` undoes. */
  function Fields(s: string, sep: char): (r: seq<string>)
    ensures |r| >= 1
    ensures forall i :: 0 <= i < |r| ==> sep !in r[i]
  {
    if s == [] then [""]
    else if s[0] == sep then [""] + Fields(s[1..], sep)
    else
      var f := Fields(s[1..], sep);
      [[s[0]] + f[0]] + f[1..]
  }

  lemma {:induction false} JoinFields(s: string, sep: char)
    ensures Join(Fields(s, sep), sep) == s
  {
    if s == [] {
    } else if s[0] == sep {
      JoinFields(s[1..], sep);
      assert Fields(s, sep)[1..] == Fields(s[1..], sep);
    } else {
      JoinFields(s[1..], sep);
      var f := Fields(s[1..], sep);
      assert Fields(s, sep)[1..] == f[1..];
      if |f| > 1 {
        assert Join(f, sep) == f[0] + [sep] + Join(f[1..], sep);
      }
    }
  }

  lemma {:induction false} FieldsJoin(xs: seq<string>, sep: char)
    requires |xs| >= 1
    requires forall i :: 0 <= i < |xs| ==> sep !in xs[i]
    ensures Fields(Join(xs, sep), sep) == xs
  {
    if |xs| == 1 {
      FieldsOfPlain(xs[0], sep);
    } else {
      FieldsJoin(xs[1..], sep);
      FieldsOfPrefixed(xs[0], Join(xs[1..], sep), sep);
      assert [xs[0]] + xs[1..] == xs;
    }
  }

  /** A string without the separator is one field. */
  lemma {:induction false} FieldsOfPlain(s: string, sep: char)
    requires sep !in s
    ensures Fields(s, sep) == [s]
  {
    if s != [] {
      assert s[0] in s;
      assert forall c :: c in s[1..] ==> c in s;
      FieldsOfPlain(s[1..], sep);
      assert [s[0]] + s[1..] == s;
    }
  }

  /** A separator-free word followed by the separator starts a new field. */
  lemma {:induction false} FieldsOfPrefixed(w: string, rest: string, sep: char)
    requires sep !in w
    ensures Fields(w + [sep] + rest, sep) == [w] + Fields(rest, sep)
  {
    if w == [] {
      assert w + [sep] + rest == [sep] + rest;
    } else {
      assert w[0] in w;
      assert forall c :: c in w[1..] ==> c in w;
      FieldsOfPrefixed(w[1..], rest, sep);
      var x := w + [sep] + rest;
      assert x[0] == w[0] && x[1..] == w[1..] + [sep] + rest;
      assert [w[0]] + w[1..] == w;
    }
  }

  /** Ruby's `split` drops the empty fields at the end. */
  function DropTrailingEmpty(fs: seq<string>): (r: seq<string>)
    ensures |r| <= |fs| && r == fs[..|r|]
    ensures |r| > 0 ==> r[|r| - 1] != ""
    ensures forall i :: |r| <= i < |fs| ==> fs[i] == ""
  {
    if |fs| == 0 then []
    else if fs[|fs| - 1] == "" then DropTrailingEmpty(fs[..|fs| - 1])
    else fs
  }

  /** `s.split(sep)` for a one-character separator. */
  function RubySplit(s: string, sep: char): (r: seq<string>)
    ensures forall i :: 0 <= i < |r| ==> sep !in r[i]
    ensures |r| > 0 ==> r[|r| - 1] != ""
    ensures |r| <= |Fields(s, sep)| && r == Fields(s, sep)[..|r|]
    ensures forall i :: |r| <= i < |Fields(s, sep)| ==> Fields(s, sep)[i] == ""
  {
    DropTrailingEmpty(Fields(s, sep))
  }

  lemma {:induction false} SplitUndoesJoin(xs: seq<string>, sep: char)
    requires |xs| >= 1 && xs[|xs| - 1] != ""
    requires forall i :: 0 <= i < |xs| ==> sep !in xs[i]
    ensures RubySplit(Join(xs, sep), sep) == xs
  {
    FieldsJoin(xs, sep);
  }

  /** A string splits into nothing exactly when it consists of separators only (`""` and `"."` among them). */
  lemma {:induction false} EmptySplit(s: string, sep: char)
    ensures RubySplit(s, sep) == [] <==> forall i :: 0 <= i < |s| ==> s[i] == sep
  {
    var fs := Fields(s, sep);
    if RubySplit(s, sep) == [] {
      JoinFields(s, sep);
      forall i | 0 <= i < |fs| ensures fs[i] == "" { }
      JoinOfEmpties(fs, sep);
    }
    if forall i :: 0 <= i < |s| ==> s[i] == sep {
      FieldsOfSeparators(s, sep);
    }
  }

  /** Every field of a string of separators is empty. */
  lemma {:induction false} FieldsOfSeparators(s: string, sep: char)
    requires forall i :: 0 <= i < |s| ==> s[i] == sep
    ensures forall i :: 0 <= i < |Fields(s, sep)| ==> Fields(s, sep)[i] == ""
  {
    if s != [] {
      FieldsOfSeparators(s[1..], sep);
    }
  }

  lemma {:induction false} JoinOfEmpties(fs: seq<string>, sep: char)
    requires forall i :: 0 <= i < |fs| ==> fs[i] == ""
    ensures forall i :: 0 <= i < |Join(fs, sep)| ==> Join(fs, sep)[i] == sep
  {
    if |fs| > 1 {
      JoinOfEmpties(fs[1..], sep);
    }
  }

  /** The characters Ruby's `strip` treats as whitespace. */
  predicate IsSpace(c: char)
  {
    c == ' ' || c == '\t' || c == '\n' || c == '\U{B}' || c == '\U{C}' || c == '\r'
  }

  /** `lstrip`: drops exactly the run of whitespace at the start of `s`. */
  function LStrip(s: string): (r: string)
    ensures |r| <= |s| && r == s[|s| - |r|..]
    ensures forall i :: 0 <= i < |s| - |r| ==> IsSpace(s[i])
    ensures |r| > 0 ==> !IsSpace(r[0])
  {
    if |s| > 0 && IsSpace(s[0]) then LStrip(s[1..]) else s
  }

  /** The first step of Ruby 1.8's `rstrip`: drop the run of NUL characters at the end. */
  function DropTrailingNul(s: string): (r: string)
    ensures |r| <= |s| && r == s[..|r|]
    ensures forall i :: |r| <= i < |s| ==> s[i] == '\0'
    ensures |r| > 0 ==> r[|r| - 1] != '\0'
  {
    if |s| > 0 && s[|s| - 1] == '\0' then DropTrailingNul(s[..|s| - 1]) else s
  }

  /** The second step of Ruby 1.8's `rstrip`: drop the run of whitespace at the end. */
  function DropTrailingSpace(s: string): (r: string)
    ensures |r| <= |s| && r == s[..|r|]
    ensures forall i :: |r| <= i < |s| ==> IsSpace(s[i])
    ensures |r| > 0 ==> !IsSpace(r[|r| - 1])
  {
    if |s| > 0 && IsSpace(s[|s| - 1]) then DropTrailingSpace(s[..|s| - 1]) else s
  }

  /**
   * `rstrip` in Ruby 1.8: first the NUL characters at the end, then the
   * whitespace before them, and nothing else. A NUL before that whitespace
   * stays.
   */
  function RStrip(s: string): (r: string)
    ensures |r| <= |s| && r == s[..|r|]
    ensures var n := |DropTrailingNul(s)|;
      |r| <= n && (forall i :: |r| <= i < n ==> IsSpace(s[i])) && (forall i :: n <= i < |s| ==> s[i] == '\0')
    ensures |r| > 0 ==> !IsSpace(r[|r| - 1])
  {
    var t := DropTrailingNul(s);
    var r := DropTrailingSpace(t);
    assert forall i :: |r| <= i < |t| ==> s[i] == t[i];
    r
  }

  /** `s.strip`: `lstrip`, then `rstrip`. */
  function Strip(s: string): (r: string)
  {
    RStrip(LStrip(s))
  }

  /**
   * Stripping a stripped string changes nothing, provided the first strip
   * did not leave a NUL at the end (which the second strip would remove).
   */
  lemma StripIdempotent(s: string)
    requires |Strip(s)| == 0 || Strip(s)[|Strip(s)| - 1] != '\0'
    ensures Strip(Strip(s)) == Strip(s)
  {
    var l := LStrip(s);
    var r := RStrip(l);
    if |r| > 0 {
      assert r[0] == l[0];
    }
    assert LStrip(r) == r;
    assert DropTrailingNul(r) == r;
    assert DropTrailingSpace(r) == r;
  }

  /** Without that proviso `strip` is not idempotent: `"a\0 "` strips to `"a\0"`, which strips to `"a"`. */
  lemma StripNotIdempotent()
    ensures Strip("a\0 ") == "a\0" && Strip(Strip("a\0 ")) == "a"
  {
    assert LStrip("a\0 ") == "a\0 ";
    assert DropTrailingNul("a\0 ") == "a\0 ";
    assert DropTrailingSpace("a\0 ") == "a\0";
    assert LStrip("a\0") == "a\0";
    assert DropTrailingNul("a\0") == "a";
    assert DropTrailingSpace("a") == "a";
  }
}
