/**
 * The Python `str` operations the splitter and the dataset builder rely on,
 * over `string` (= `seq<char>`): `startswith`, `endswith`, `split` on a
 * one-character separator, `join` and `replace` of one character.
 */
module Text {

  predicate StartsWith(s: string, prefix: string) {
    |prefix| <= |s| && s[..|prefix|] == prefix
  }

  predicate EndsWith(s: string, suffix: string) {
    |suffix| <= |s| && s[|s| - |suffix|..] == suffix
  }

  /** `s.split(c)`: the pieces between the occurrences of `c`; never empty. */
  function Split(s: string, c: char): (r: seq<string>)
    ensures |r| >= 1
  {
    if s == [] then [""]
    else
      var rest := Split(s[1..], c);
      if s[0] == c then [""] + rest
      else [[s[0]] + rest[0]] + rest[1..]
  }

  /** `c.join(parts)` for a one-character separator. */
  function Join(parts: seq<string>, c: char): string {
    if |parts| == 0 then ""
    else if |parts| == 1 then parts[0]
    else parts[0] + [c] + Join(parts[1..], c)
  }

  /** `s.split(c)[0]`: everything before the first `c`. */
  function FirstField(s: string, c: char): string {
    Split(s, c)[0]
  }

  /** `s.replace(c, rep)` for a one-character pattern. */
  function Replace(s: string, c: char, rep: string): string {
    if s == [] then ""
    else (if s[0] == c then rep else [s[0]]) + Replace(s[1..], c, rep)
  }

  /** Splitting and joining again on the same separator gives the string back. */
  lemma {:induction false} JoinSplit(s: string, c: char)
    ensures Join(Split(s, c), c) == s
  {
    if s != [] {
      var rest := Split(s[1..], c);
      JoinSplit(s[1..], c);
      if s[0] == c {
        assert Split(s, c)[1..] == rest;
      } else if |rest| > 1 {
        assert Split(s, c)[1..] == rest[1..];
      }
    }
  }

  /** Without the separator a string is a single piece. */
  lemma {:induction false} SplitWithout(s: string, c: char)
    requires c !in s
    ensures Split(s, c) == [s]
  {
    if s != [] {
      SplitWithout(s[1..], c);
      assert [s[0]] + s[1..] == s;
    }
  }

  /** One step of `Split` on a string with a known first character. */
  lemma SplitCons(x: char, t: string, c: char)
    ensures Split([x] + t, c) == if x == c then [""] + Split(t, c)
      else [[x] + Split(t, c)[0]] + Split(t, c)[1..]
  {
    assert ([x] + t)[1..] == t;
  }

  /** Splitting distributes over one occurrence of the separator. */
  lemma {:induction false} SplitAround(a: string, b: string, c: char)
    ensures Split(a + [c] + b, c) == Split(a, c) + Split(b, c)
  {
    if a == [] {
      assert a + [c] + b == [c] + b;
      SplitCons(c, b, c);
    } else {
      SplitAround(a[1..], b, c);
      SplitAroundStep(a[0], a[1..], b, c);
      assert [a[0]] + a[1..] == a;
    }
  }

  /** The inductive step of `SplitAround`: one more leading character. */
  lemma SplitAroundStep(x: char, a: string, b: string, c: char)
    requires Split(a + [c] + b, c) == Split(a, c) + Split(b, c)
    ensures Split([x] + a + [c] + b, c) == Split([x] + a, c) + Split(b, c)
  {
    var t := a + [c] + b;
    assert [x] + a + [c] + b == [x] + t;
    SplitCons(x, t, c);
    SplitCons(x, a, c);
    SeqShift(Split(a, c), Split(b, c), x, c);
  }

  /** The sequence facts behind `SplitAroundStep`, with the splits abstracted. */
  lemma SeqShift(front: seq<string>, back: seq<string>, x: char, c: char)
    requires |front| >= 1
    ensures x == c ==> [""] + (front + back) == ([""] + front) + back
    ensures x != c ==>
      [[x] + (front + back)[0]] + (front + back)[1..] == ([[x] + front[0]] + front[1..]) + back
  {
    assert (front + back)[0] == front[0];
    assert (front + back)[1..] == front[1..] + back;
  }

  /** The first field is the longest separator-free prefix. */
  lemma {:induction false} FirstFieldPrefix(s: string, c: char)
    ensures var r := FirstField(s, c);
      |r| <= |s| && r == s[..|r|] && c !in r && (|r| < |s| ==> s[|r|] == c)
  {
    if s != [] && s[0] != c {
      FirstFieldPrefix(s[1..], c);
    }
  }

  /** What precedes the first separator is the first field. */
  lemma FirstFieldBefore(a: string, b: string, c: char)
    requires c !in a
    ensures FirstField(a + [c] + b, c) == a
  {
    SplitAround(a, b, c);
    SplitWithout(a, c);
  }

  lemma {:induction false} ReplaceConcat(a: string, b: string, c: char, rep: string)
    ensures Replace(a + b, c, rep) == Replace(a, c, rep) + Replace(b, c, rep)
  {
    if a != [] {
      ReplaceConcat(a[1..], b, c, rep);
      assert (a + b)[1..] == a[1..] + b;
    } else {
      assert a + b == b;
    }
  }

  /** A character is gone after replacing when it is the pattern or was absent, and the replacement lacks it. */
  lemma {:induction false} ReplaceRemoves(s: string, c: char, rep: string, d: char)
    requires d == c || d !in s
    requires d !in rep
    ensures d !in Replace(s, c, rep)
  {
    if s != [] {
      ReplaceRemoves(s[1..], c, rep, d);
    }
  }

  lemma {:induction false} ReplaceAbsent(s: string, c: char, rep: string)
    requires c !in s
    ensures Replace(s, c, rep) == s
  {
    if s != [] {
      ReplaceAbsent(s[1..], c, rep);
    }
  }

  /** Replacing in `a + [c] + b` where `a` is free of `c`. */
  lemma ReplaceFirst(a: string, b: string, c: char, rep: string)
    requires c !in a
    ensures Replace(a + [c] + b, c, rep) == a + rep + Replace(b, c, rep)
  {
    ReplaceConcat(a + [c], b, c, rep);
    ReplaceConcat(a, [c], c, rep);
    ReplaceAbsent(a, c, rep);
  }

  /** Replacing leaves a separator-free prefix in place. */
  lemma ReplaceKeep(a: string, b: string, c: char, rep: string)
    requires c !in a
    ensures Replace(a + b, c, rep) == a + Replace(b, c, rep)
  {
    ReplaceConcat(a, b, c, rep);
    ReplaceAbsent(a, c, rep);
  }

  /** A leading separator becomes the replacement. */
  lemma ReplaceHit(b: string, c: char, rep: string)
    ensures Replace([c] + b, c, rep) == rep + Replace(b, c, rep)
  {
    assert ([c] + b)[1..] == b;
  }

  /** A leading occurrence of the pattern is dropped when the replacement is empty. */
  lemma ReplaceDropped(b: string, c: char)
    ensures Replace([c] + b, c, "") == Replace(b, c, "")
  {
    assert ([c] + b)[1..] == b;
    assert "" + Replace(b, c, "") == Replace(b, c, "");
  }

  /** The first field of `a + b` starts with `a` when `a` is separator-free. */
  lemma {:induction false} FirstFieldKeep(a: string, b: string, c: char)
    requires c !in a
    ensures FirstField(a + b, c) == a + FirstField(b, c)
  {
    if a != [] {
      FirstFieldKeep(a[1..], b, c);
      assert (a + b)[1..] == a[1..] + b;
      assert [a[0]] + a[1..] == a;
    } else {
      assert a + b == b;
    }
  }

  /** Text after a string that already holds the separator does not change its first field. */
  lemma {:induction false} FirstFieldExtend(a: string, b: string, c: char)
    requires c in a
    ensures FirstField(a + b, c) == FirstField(a, c)
  {
    assert (a + b)[0] == a[0];
    if a[0] != c {
      assert (a + b)[1..] == a[1..] + b;
      FirstFieldExtend(a[1..], b, c);
    }
  }

  /** A leading separator ends the first field at once. */
  lemma FirstFieldHit(b: string, c: char)
    ensures FirstField([c] + b, c) == ""
  {
  }

  /** Removing the two occurrences of `c` from `y + c + m + c + r`. */
  lemma TwoRemoved(y: string, m: string, r: string, c: char)
    requires c !in y && c !in m && c !in r
    ensures Replace(y + ([c] + (m + ([c] + r))), c, "") == y + (m + r)
  {
    var inner := m + ([c] + r);
    assert Replace(inner, c, "") == m + r by {
      ReplaceKeep(m, [c] + r, c, "");
      ReplaceDropped(r, c);
      ReplaceAbsent(r, c, "");
    }
    assert Replace([c] + inner, c, "") == m + r by { ReplaceDropped(inner, c); }
    ReplaceKeep(y, [c] + inner, c, "");
  }

  /** Replacing the one occurrence of `c` in `p + c + q`. */
  lemma OneReplaced(p: string, q: string, c: char, rep: string)
    requires c !in p && c !in q
    ensures Replace(p + ([c] + q), c, rep) == p + (rep + q)
  {
    ReplaceKeep(p, [c] + q, c, rep);
    ReplaceHit(q, c, rep);
    ReplaceAbsent(q, c, rep);
  }

  /** `TwoRemoved` behind five separator-free pieces. */
  lemma TwoRemovedDeep(a: string, b: string, c: string, d: string, e: string, m: string, q: string, x: char)
    requires x !in a && x !in b && x !in c && x !in d && x !in e && x !in m && x !in q
    ensures Replace(a + (b + (c + (d + (e + ([x] + (m + ([x] + q))))))), x, "")
         == a + (b + (c + (d + (e + (m + q)))))
  {
    var y := [x] + (m + ([x] + q));
    var t := m + q;
    assert Replace(y, x, "") == t by { TwoRemoved([], m, q, x); assert [] + y == y; }
    assert Replace(e + y, x, "") == e + t by { ReplaceKeep(e, y, x, ""); }
    assert Replace(d + (e + y), x, "") == d + (e + t) by { ReplaceKeep(d, e + y, x, ""); }
    assert Replace(c + (d + (e + y)), x, "") == c + (d + (e + t)) by { ReplaceKeep(c, d + (e + y), x, ""); }
    assert Replace(b + (c + (d + (e + y))), x, "") == b + (c + (d + (e + t))) by {
      ReplaceKeep(b, c + (d + (e + y)), x, "");
    }
    ReplaceKeep(a, b + (c + (d + (e + y))), x, "");
  }

  /** `OneReplaced` behind three separator-free pieces. */
  lemma OneReplacedDeep(a: string, b: string, c: string, w: string, x: char, rep: string)
    requires x !in a && x !in b && x !in c && x !in w
    ensures Replace(a + (b + (c + ([x] + w))), x, rep) == a + (b + (c + (rep + w)))
  {
    OneReplaced(c, w, x, rep);
    ReplaceKeep(b, c + ([x] + w), x, rep);
    ReplaceKeep(a, b + (c + ([x] + w)), x, rep);
  }

  /** The first field on `x` of seven `x`-free pieces followed by `x` and a tail. */
  lemma FirstFieldDeep(a: string, b: string, c: string, d: string, e: string, m: string, s: string, u: string, x: char)
    requires x !in a && x !in b && x !in c && x !in d && x !in e && x !in m && x !in s
    ensures FirstField(a + (b + (c + (d + (e + (m + (s + ([x] + u))))))), x)
         == a + (b + (c + (d + (e + (m + s)))))
  {
    FirstFieldHit(u, x);
    FirstFieldKeep(s, [x] + u, x);
    assert s + "" == s;
    FirstFieldKeep(m, s + ([x] + u), x);
    FirstFieldKeep(e, m + (s + ([x] + u)), x);
    FirstFieldKeep(d, e + (m + (s + ([x] + u))), x);
    FirstFieldKeep(c, d + (e + (m + (s + ([x] + u)))), x);
    FirstFieldKeep(b, c + (d + (e + (m + (s + ([x] + u))))), x);
    FirstFieldKeep(a, b + (c + (d + (e + (m + (s + ([x] + u)))))), x);
  }
}
