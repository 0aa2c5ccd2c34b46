/** The string built-ins the resolver relies on: `split` with a one-character
    separator, dropping empty parts, and ASCII upper-casing. */
module JsStrings {

  /** `s.split(d)`: the parts of `s` between occurrences of `d`, in order.
      The empty string splits into one empty part. */
  function Split(s: string, d: char): (parts: seq<string>)
    ensures |parts| >= 1
    ensures forall i :: 0 <= i < |parts| ==> d !in parts[i]
  {
    if s == [] then [[]]
    else
      var rest := Split(s[1..], d);
      if s[0] == d then [[]] + rest
      else [[s[0]] + rest[0]] + rest[1..]
  }

  /** `parts.join(d)`, the inverse of `Split`. */
  function Join(parts: seq<string>, d: char): string
    requires |parts| >= 1
  {
    if |parts| == 1 then parts[0] else parts[0] + [d] + Join(parts[1..], d)
  }

  /** `parts.filter((part) => part != '')` */
  function NonEmpty(parts: seq<string>): (r: seq<string>)
    ensures forall i :: 0 <= i < |r| ==> r[i] != []
  {
    if parts == [] then []
    else if parts[0] == [] then NonEmpty(parts[1..])
    else [parts[0]] + NonEmpty(parts[1..])
  }

  /** `s` without its leading run of `d`. */
  function TrimStart(s: string, d: char): string {
    if s != [] && s[0] == d then TrimStart(s[1..], d) else s
  }

  /** The prefix of `s` before the first `d`. */
  function FirstField(s: string, d: char): string {
    if s == [] || s[0] == d then [] else [s[0]] + FirstField(s[1..], d)
  }

  /** `n` copies of `c`. */
  function Repeat(c: char, n: nat): (r: string)
    ensures |r| == n && forall i :: 0 <= i < n ==> r[i] == c
  {
    if n == 0 then [] else [c] + Repeat(c, n - 1)
  }

  /** Background fact about `split`, not a promise of the resolver: joining
      the parts of a split gives back the string. */
  lemma {:induction false} JoinSplit(s: string, d: char)
    ensures Join(Split(s, d), d) == s
  {
    if s != [] {
      var rest := Split(s[1..], d);
      JoinSplit(s[1..], d);
      if s[0] == d {
        assert Split(s, d) == [[]] + rest;
        assert Join(Split(s, d), d) == [] + [d] + Join(rest, d);
      } else if |rest| == 1 {
        assert Split(s, d) == [[s[0]] + rest[0]];
      } else {
        assert Join(rest, d) == rest[0] + [d] + Join(rest[1..], d);
        assert Split(s, d) == [[s[0]] + rest[0]] + rest[1..];
        assert Split(s, d)[1..] == rest[1..];
      }
    }
  }

  /** A field free of `d`, followed by `d`, splits off as one part. */
  lemma {:induction false} SplitField(p: string, t: string, d: char)
    requires d !in p
    ensures Split(p, d) == [p]
    ensures Split(p + [d] + t, d) == [p] + Split(t, d)
  {
    if p == [] {
      assert p + [d] + t == [d] + t;
      assert ([d] + t)[1..] == t;
    } else {
      SplitField(p[1..], t, d);
      assert (p + [d] + t)[1..] == p[1..] + [d] + t;
      assert [p[0]] + p[1..] == p;
    }
  }

  /** Background fact about `split`, not a promise of the resolver:
      splitting a join of `d`-free parts gives back the parts. */
  lemma {:induction false} SplitJoin(parts: seq<string>, d: char)
    requires |parts| >= 1
    requires forall i :: 0 <= i < |parts| ==> d !in parts[i]
    ensures Split(Join(parts, d), d) == parts
  {
    SplitField(parts[0], [], d);
    if |parts| > 1 {
      SplitJoin(parts[1..], d);
      SplitField(parts[0], Join(parts[1..], d), d);
      assert [parts[0]] + parts[1..] == parts;
    }
  }

  /** The first part of a split is the prefix before the first separator. */
  lemma {:induction false} SplitHead(s: string, d: char)
    ensures Split(s, d)[0] == FirstField(s, d)
  {
    if s != [] && s[0] != d {
      SplitHead(s[1..], d);
    }
  }

  /** The first non-empty part of a split exists exactly when `s` holds a
      character other than `d`, and it is the field that starts there. */
  lemma {:induction false} FirstSegment(s: string, d: char)
    ensures NonEmpty(Split(s, d)) != [] <==> exists i :: 0 <= i < |s| && s[i] != d
    ensures NonEmpty(Split(s, d)) != [] ==>
      NonEmpty(Split(s, d))[0] == FirstField(TrimStart(s, d), d)
  {
    if s != [] {
      var rest := Split(s[1..], d);
      FirstSegment(s[1..], d);
      if s[0] == d {
        assert Split(s, d) == [[]] + rest;
        assert NonEmpty(Split(s, d)) == NonEmpty(rest);
        assert (exists i :: 0 <= i < |s| && s[i] != d) ==>
          (exists i :: 0 <= i < |s[1..]| && s[1..][i] != d) by {
          if exists i :: 0 <= i < |s| && s[i] != d {
            var i :| 0 <= i < |s| && s[i] != d;
            assert s[1..][i - 1] != d;
          }
        }
        assert (exists i :: 0 <= i < |s[1..]| && s[1..][i] != d) ==>
          (exists i :: 0 <= i < |s| && s[i] != d) by {
          if exists i :: 0 <= i < |s[1..]| && s[1..][i] != d {
            var i :| 0 <= i < |s[1..]| && s[1..][i] != d;
            assert s[i + 1] != d;
          }
        }
      } else {
        SplitHead(s[1..], d);
        var head := [s[0]] + rest[0];
        assert Split(s, d) == [head] + rest[1..];
        assert NonEmpty(Split(s, d)) == [head] + NonEmpty(rest[1..]);
        assert s[0] != d;
      }
    }
  }

  /** Leading separators are skipped up to the first other character. */
  lemma {:induction false} TrimStartRepeat(n: nat, t: string, d: char)
    requires t == [] || t[0] != d
    ensures TrimStart(Repeat(d, n) + t, d) == t
  {
    if n > 0 {
      TrimStartRepeat(n - 1, t, d);
      assert (Repeat(d, n) + t)[1..] == Repeat(d, n - 1) + t;
    }
  }

  /** A `d`-free word followed by nothing or by `d` is the first field. */
  lemma {:induction false} FirstFieldOfWord(w: string, rest: string, d: char)
    requires d !in w
    requires rest == [] || rest[0] == d
    ensures FirstField(w + rest, d) == w
  {
    if w != [] {
      FirstFieldOfWord(w[1..], rest, d);
      assert (w + rest)[1..] == w[1..] + rest;
    }
  }

  /** `c.toUpperCase()` for the ASCII letters; every other character is kept. */
  function UpperChar(c: char): char {
    if 'a' <= c <= 'z' then (c as int - 32) as char else c
  }

  /** `s.toUpperCase()`, character by character. */
  function Upper(s: string): (u: string)
    ensures |u| == |s|
    ensures forall i :: 0 <= i < |s| ==> u[i] == UpperChar(s[i])
  {
    if s == [] then [] else [UpperChar(s[0])] + Upper(s[1..])
  }

  /** `toUpper(s1) === toUpper(s2)` */
  predicate EqualsIgnoreCase(a: string, b: string) {
    Upper(a) == Upper(b)
  }

  /** Two strings are equal ignoring case exactly when they have the same
      length and agree letter by letter once upper-cased. */
  lemma EqualsIgnoreCasePointwise(a: string, b: string)
    ensures EqualsIgnoreCase(a, b) <==>
      |a| == |b| && forall i :: 0 <= i < |a| ==> UpperChar(a[i]) == UpperChar(b[i])
  {
    if |a| == |b| && forall i :: 0 <= i < |a| ==> UpperChar(a[i]) == UpperChar(b[i]) {
      assert forall i :: 0 <= i < |a| ==> Upper(a)[i] == Upper(b)[i];
    }
  }
}
