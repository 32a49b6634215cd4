/** The .NET string operations the core relies on: `String.Split` on one
    separator with `StringSplitOptions.RemoveEmptyEntries`, `String.Join`,
    `char.IsWhiteSpace` / `string.IsNullOrWhiteSpace` and a lower-casing of
    ASCII letters. */
module Strings {
  import opened Common

  /** `char.IsWhiteSpace`: U+0009..U+000D, U+0085 and the Unicode separator
      categories Zs, Zl and Zp. The regular-expression class `\s` denotes the
      same set. */
  predicate IsWhiteSpace(c: char) {
    || ('\t' <= c <= '\r')
    || c == ' '
    || c == '\U{0085}'
    || c == '\U{00A0}'
    || c == '\U{1680}'
    || ('\U{2000}' <= c <= '\U{200A}')
    || c == '\U{2028}'
    || c == '\U{2029}'
    || c == '\U{202F}'
    || c == '\U{205F}'
    || c == '\U{3000}'
  }

  /** `string.IsNullOrWhiteSpace` on a non-null string. */
  predicate IsBlank(s: string) {
    forall i :: 0 <= i < |s| ==> IsWhiteSpace(s[i])
  }

  /** Position of the first `sep` in `s`, or `|s|` when there is none. */
  function IndexOf(s: string, sep: char): (k: nat)
    ensures k <= |s|
    ensures k < |s| ==> s[k] == sep
    ensures forall i :: 0 <= i < k ==> s[i] != sep
  {
    if |s| == 0 then 0
    else if s[0] == sep then 0
    else 1 + IndexOf(s[1..], sep)
  }

  /** `s.Split(new[] { sep }, StringSplitOptions.RemoveEmptyEntries)`: the
      maximal runs of `s` free of `sep`, in order, empty runs dropped. */
  function Split(s: string, sep: char): (r: seq<string>)
    ensures forall i :: 0 <= i < |r| ==> |r[i]| > 0 && sep !in r[i]
    decreases |s|
  {
    if |s| == 0 then []
    else
      var k := IndexOf(s, sep);
      var head := s[..k];
      var rest := if k < |s| then s[k + 1..] else [];
      assert forall j :: 0 <= j < |head| ==> head[j] == s[j];
      (if |head| > 0 then [head] else []) + Split(rest, sep)
  }

  /** `String.Join(sep, parts)`. */
  function Join(sep: string, parts: seq<string>): string
  {
    if |parts| == 0 then ""
    else if |parts| == 1 then parts[0]
    else parts[0] + sep + Join(sep, parts[1..])
  }

  /** Tokens that are non-empty and free of the separator survive a join
      followed by a split unchanged. */
  lemma {:induction false} SplitJoin(parts: seq<string>, sep: char)
    requires forall i :: 0 <= i < |parts| ==> |parts[i]| > 0 && sep !in parts[i]
    ensures Split(Join([sep], parts), sep) == parts
  {
    if |parts| == 1 {
      var s := parts[0];
      assert IndexOf(s, sep) == |s|;
      assert s[..|s|] == s;
    } else if |parts| > 1 {
      var p := parts[0];
      var tail := Join([sep], parts[1..]);
      var s := p + [sep] + tail;
      assert Join([sep], parts) == s;
      IndexOfPrefix(p, sep, tail);
      assert s[..|p|] == p;
      assert s[|p| + 1..] == tail;
      SplitJoin(parts[1..], sep);
    }
  }

  lemma {:induction false} IndexOfPrefix(p: string, sep: char, tail: string)
    requires sep !in p
    ensures IndexOf(p + [sep] + tail, sep) == |p|
  {
    if |p| > 0 {
      assert (p + [sep] + tail)[1..] == p[1..] + [sep] + tail;
      IndexOfPrefix(p[1..], sep, tail);
    }
  }

  /** The characters of `s` other than `sep`, in order. */
  function Without(s: string, sep: char): string
  {
    if |s| == 0 then [] else (if s[0] == sep then [] else [s[0]]) + Without(s[1..], sep)
  }

  /** Splitting loses no character but the separators and reorders none:
      the pieces, concatenated, are `s` with every `sep` removed. */
  lemma {:induction false} SplitKeepsEveryCharacter(s: string, sep: char)
    ensures Flatten(Split(s, sep)) == Without(s, sep)
    decreases |s|
  {
    if |s| > 0 {
      var k := IndexOf(s, sep);
      var rest := if k < |s| then s[k + 1..] else [];
      FlattenSplitStep(s, sep, k, rest);
      WithoutStep(s, sep, k, rest);
      SplitKeepsEveryCharacter(rest, sep);
    }
  }

  lemma FlattenSplitStep(s: string, sep: char, k: nat, rest: string)
    requires |s| > 0 && k == IndexOf(s, sep) && rest == if k < |s| then s[k + 1..] else []
    ensures Flatten(Split(s, sep)) == s[..k] + Flatten(Split(rest, sep))
  {
    var head := s[..k];
    var first := if |head| > 0 then [head] else [];
    var tail := Split(rest, sep);
    SplitUnfold(s, sep, k, rest);
    FlattenConcat(first, tail);
    FlattenOptional(head);
  }

  lemma SplitUnfold(s: string, sep: char, k: nat, rest: string)
    requires |s| > 0 && k == IndexOf(s, sep) && rest == if k < |s| then s[k + 1..] else []
    ensures Split(s, sep) == (if |s[..k]| > 0 then [s[..k]] else []) + Split(rest, sep)
  {
  }

  lemma FlattenOptional(head: string)
    ensures Flatten(if |head| > 0 then [head] else []) == head
  {
    if |head| > 0 {
      assert Flatten([head]) == head + Flatten([head][1..]);
    }
  }

  lemma {:induction false} WithoutStep(s: string, sep: char, k: nat, rest: string)
    requires |s| > 0 && k == IndexOf(s, sep) && rest == if k < |s| then s[k + 1..] else []
    ensures Without(s, sep) == s[..k] + Without(rest, sep)
    decreases k
  {
    if k == 0 {
      assert s[0] == sep && rest == s[1..];
    } else if |s| == 1 {
      assert s[..k] == [s[0]] && rest == [];
    } else {
      var t := s[1..];
      assert IndexOf(t, sep) == k - 1;
      assert k < |s| ==> t[k..] == s[k + 1..];
      WithoutStep(t, sep, k - 1, rest);
      assert Without(s, sep) == [s[0]] + Without(t, sep);
      assert s[..k] == [s[0]] + t[..k - 1];
      AppendAssoc([s[0]], t[..k - 1], Without(rest, sep));
    }
  }

  lemma AppendAssoc<T>(a: seq<T>, b: seq<T>, c: seq<T>)
    ensures a + (b + c) == (a + b) + c
  {
  }

  /** The split is empty exactly when `s` consists of separators only. */
  lemma SplitEmptyIffOnlySeparators(s: string, sep: char)
    ensures |Split(s, sep)| == 0 <==> forall i :: 0 <= i < |s| ==> s[i] == sep
  {
    SplitKeepsEveryCharacter(s, sep);
    var r := Split(s, sep);
    if |r| > 0 {
      assert Flatten(r) == r[0] + Flatten(r[1..]);
      WithoutEmptyIffOnlySeparators(s, sep);
    } else {
      WithoutEmptyIffOnlySeparators(s, sep);
    }
  }

  lemma {:induction false} WithoutEmptyIffOnlySeparators(s: string, sep: char)
    ensures |Without(s, sep)| == 0 <==> forall i :: 0 <= i < |s| ==> s[i] == sep
  {
    if |s| > 0 {
      WithoutEmptyIffOnlySeparators(s[1..], sep);
      assert forall i :: 1 <= i < |s| ==> s[i] == s[1..][i - 1];
    }
  }

  /** `ToLower` on ASCII letters; every other character is left unchanged. */
  function AsciiLower(s: string): (r: string)
    ensures |r| == |s|
  {
    if |s| == 0 then []
    else [if 'A' <= s[0] <= 'Z' then (s[0] as int + 32) as char else s[0]] + AsciiLower(s[1..])
  }

  /** A string without capital ASCII letters is its own lower case. */
  lemma {:induction false} AsciiLowerKeepsLowercase(s: string)
    requires forall i :: 0 <= i < |s| ==> !('A' <= s[i] <= 'Z')
    ensures AsciiLower(s) == s
  {
    if |s| > 0 {
      AsciiLowerKeepsLowercase(s[1..]);
      assert s == [s[0]] + s[1..];
    }
  }
}
