/**
 * The few JavaScript string operations the editor relies on, with the
 * semantics of the JavaScript built-ins: `split` with a one-character
 * separator, `join`, `filter(Boolean)` over the parts, `endsWith` and an
 * ASCII `toLowerCase`.  Strings are sequences of UTF-16 code units, here
 * `seq<char>`.
 */
module Strings {

  /** `s.split(sep)`: always at least one part, and no part holds `sep`. */
  function Split(s: string, sep: char): (parts: seq<string>)
    ensures |parts| >= 1
    ensures forall i :: 0 <= i < |parts| ==> sep !in parts[i]
    decreases |s|
  {
    if s == [] then [""]
    else
      var rest := Split(s[1..], sep);
      if s[0] == sep then [""] + rest
      else [[s[0]] + rest[0]] + rest[1..]
  }

  /** `parts.join(sep)`. */
  function Join(parts: seq<string>, sep: char): string
  {
    if |parts| == 0 then ""
    else if |parts| == 1 then parts[0]
    else parts[0] + [sep] + Join(parts[1..], sep)
  }

  /** The last part of a split, `s.split(sep).pop()`. */
  function LastPart(s: string, sep: char): (r: string)
    ensures sep !in r
  {
    var parts := Split(s, sep);
    parts[|parts| - 1]
  }

  /** `parts.filter(Boolean)`: the non-empty parts, in order. */
  function NonEmpty(parts: seq<string>): (r: seq<string>)
    ensures forall i :: 0 <= i < |r| ==> r[i] != ""
    ensures forall i :: 0 <= i < |r| ==> r[i] in parts
    ensures |r| <= |parts|
  {
    if parts == [] then []
    else if parts[0] == "" then NonEmpty(parts[1..])
    else [parts[0]] + NonEmpty(parts[1..])
  }

  /** `path.split("/").filter(Boolean)`: the names along a slash-separated path. */
  function Segments(path: string): (r: seq<string>)
    ensures forall i :: 0 <= i < |r| ==> r[i] != "" && '/' !in r[i]
  {
    NonEmpty(Split(path, '/'))
  }

  /** `s.endsWith(suffix)`. */
  predicate EndsWith(s: string, suffix: string)
  {
    |suffix| <= |s| && s[|s| - |suffix|..] == suffix
  }

  /** `toLowerCase` restricted to ASCII letters. */
  function LowerChar(c: char): char
  {
    if 'A' <= c <= 'Z' then (c as int + 32) as char else c
  }

  function Lower(s: string): (r: string)
    ensures |r| == |s|
    ensures forall i :: 0 <= i < |s| ==> r[i] == LowerChar(s[i])
  {
    seq(|s|, i requires 0 <= i < |s| => LowerChar(s[i]))
  }

  /** A name that can stand between two separators. */
  predicate IsName(x: string, sep: char)
  {
    x != "" && sep !in x
  }

  // ---------------------------------------------------------------------
  // Split and Join are inverse to each other

  lemma SplitWithoutSeparator(s: string, sep: char)
    requires sep !in s
    ensures Split(s, sep) == [s]
    decreases |s|
  {
    if s != [] {
      SplitWithoutSeparator(s[1..], sep);
      assert [s[0]] + s[1..] == s;
    }
  }

  /** Splitting distributes over a separator. */
  lemma {:induction false} SplitAround(a: string, b: string, sep: char)
    ensures Split(a + [sep] + b, sep) == Split(a, sep) + Split(b, sep)
    decreases |a|
  {
    var s := a + [sep] + b;
    if a == [] {
      assert s[0] == sep && s[1..] == b;
    } else {
      assert s[0] == a[0] && s[1..] == a[1..] + [sep] + b;
      SplitAround(a[1..], b, sep);
    }
  }

  /** `s.split(sep).join(sep) === s` for every string. */
  lemma {:induction false} JoinSplit(s: string, sep: char)
    ensures Join(Split(s, sep), sep) == s
    decreases |s|
  {
    if s != [] {
      var rest := Split(s[1..], sep);
      JoinSplit(s[1..], sep);
      if s[0] == sep {
        assert Split(s, sep) == [""] + rest;
        assert ([""] + rest)[1..] == rest;
      } else {
        var parts := [[s[0]] + rest[0]] + rest[1..];
        assert Split(s, sep) == parts;
        if |rest| == 1 {
          assert Join(rest, sep) == rest[0];
        } else {
          assert parts[1..] == rest[1..];
          assert Join(rest, sep) == rest[0] + [sep] + Join(rest[1..], sep);
        }
      }
    }
  }

  /** Joining names that hold no separator and splitting again gives the names back. */
  lemma {:induction false} SplitJoin(parts: seq<string>, sep: char)
    requires |parts| >= 1
    requires forall i :: 0 <= i < |parts| ==> sep !in parts[i]
    ensures Split(Join(parts, sep), sep) == parts
    decreases |parts|
  {
    if |parts| == 1 {
      SplitWithoutSeparator(parts[0], sep);
    } else {
      SplitWithoutSeparator(parts[0], sep);
      SplitJoin(parts[1..], sep);
      SplitAround(parts[0], Join(parts[1..], sep), sep);
    }
  }

  /** So joining is injective on non-empty lists of separator-free parts. */
  lemma JoinInjective(p: seq<string>, q: seq<string>, sep: char)
    requires |p| >= 1 && |q| >= 1
    requires forall i :: 0 <= i < |p| ==> sep !in p[i]
    requires forall i :: 0 <= i < |q| ==> sep !in q[i]
    requires Join(p, sep) == Join(q, sep)
    ensures p == q
  {
    SplitJoin(p, sep);
    SplitJoin(q, sep);
  }

  lemma {:induction false} NonEmptyOfNames(parts: seq<string>)
    requires forall i :: 0 <= i < |parts| ==> parts[i] != ""
    ensures NonEmpty(parts) == parts
    decreases |parts|
  {
    if parts != [] {
      NonEmptyOfNames(parts[1..]);
    }
  }

  /** A folder path built by joining names has exactly those names as its segments. */
  lemma SegmentsOfJoin(names: seq<string>)
    requires |names| >= 1
    requires forall i :: 0 <= i < |names| ==> IsName(names[i], '/')
    ensures Segments(Join(names, '/')) == names
  {
    SplitJoin(names, '/');
    NonEmptyOfNames(names);
  }

  /** A leading slash adds only an empty part, which `filter(Boolean)` drops. */
  lemma SegmentsIgnoreLeadingSlash(path: string)
    ensures Segments("/" + path) == Segments(path)
  {
    var s := "/" + path;
    assert s[0] == '/' && s[1..] == path;
    assert Split(s, '/') == [""] + Split(path, '/');
  }

  /** The joined names of a non-empty list are empty only if the list is one empty name. */
  lemma JoinNonEmpty(names: seq<string>, sep: char)
    requires |names| >= 1 && names[0] != ""
    ensures Join(names, sep) != ""
  {
    if |names| > 1 {
      assert Join(names, sep) == names[0] + [sep] + Join(names[1..], sep);
    }
  }

  /** Joining one more name appends a separator and that name. */
  lemma {:induction false} JoinSnoc(names: seq<string>, x: string, sep: char)
    requires |names| >= 1
    ensures Join(names + [x], sep) == Join(names, sep) + [sep] + x
    decreases |names|
  {
    if |names| == 1 {
      assert names + [x] == [names[0], x];
      assert (names + [x])[1..] == [x];
    } else {
      assert (names + [x])[1..] == names[1..] + [x];
      JoinSnoc(names[1..], x, sep);
    }
  }

  /** Without a separator the last part is the whole string. */
  lemma LastPartWhole(s: string, sep: char)
    requires sep !in s
    ensures LastPart(s, sep) == s
  {
    SplitWithoutSeparator(s, sep);
  }

  /** The last part is what follows the last separator. */
  lemma LastPartAfter(a: string, e: string, sep: char)
    requires sep !in e
    ensures LastPart(a + [sep] + e, sep) == e
  {
    SplitAround(a, e, sep);
    SplitWithoutSeparator(e, sep);
  }
}
