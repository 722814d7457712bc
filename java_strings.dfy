/**
 * The parts of java.lang.String the modelled code relies on, over `seq<char>`:
 * ASCII case mapping, `contains`, `replace` (every non-overlapping occurrence,
 * scanning left to right), `lastIndexOf` and `split` on a set of single-character
 * separators (Java drops trailing empty pieces, but returns the input itself when
 * no separator occurs).
 */
module JavaStrings {

  function ToLowerChar(c: char): (d: char)
    ensures 'A' <= c <= 'Z' ==> d as int == c as int + 32
    ensures !('A' <= c <= 'Z') ==> d == c
  {
    if 'A' <= c <= 'Z' then (c as int + 32) as char else c
  }

  function ToUpperChar(c: char): (d: char)
    ensures 'a' <= c <= 'z' ==> d as int == c as int - 32
    ensures !('a' <= c <= 'z') ==> d == c
  {
    if 'a' <= c <= 'z' then (c as int - 32) as char else c
  }

  /** `s.toLowerCase()` for ASCII text. */
  function Lower(s: string): (r: string)
    ensures |r| == |s|
    ensures forall i :: 0 <= i < |s| ==> r[i] == ToLowerChar(s[i])
    ensures forall i :: 0 <= i < |r| ==> !('A' <= r[i] <= 'Z')
  {
    seq(|s|, i requires 0 <= i < |s| => ToLowerChar(s[i]))
  }

  /** Lowercasing twice is lowercasing once, and text without capitals is left alone. */
  lemma LowerNoCapitals(s: string)
    requires forall i :: 0 <= i < |s| ==> !('A' <= s[i] <= 'Z')
    ensures Lower(s) == s
  {
  }

  /** `t` occurs in `s` at index `i`. */
  predicate OccursAt(s: string, t: string, i: int)
  {
    0 <= i && i + |t| <= |s| && s[i..i + |t|] == t
  }

  /** `s.contains(t)`. */
  predicate Contains(s: string, t: string)
  {
    exists i :: 0 <= i <= |s| - |t| && OccursAt(s, t, i)
  }

  /** An occurrence in the tail is an occurrence in the whole, shifted by one. */
  lemma ContainsTail(s: string, t: string)
    requires |s| > 0 && Contains(s[1..], t)
    ensures Contains(s, t)
  {
    var i :| 0 <= i <= |s[1..]| - |t| && OccursAt(s[1..], t, i);
    assert s[i + 1..i + 1 + |t|] == s[1..][i..i + |t|];
    assert OccursAt(s, t, i + 1);
  }

  /** `s.replace(target, rep)`: every occurrence, leftmost first, none overlapping. */
  function ReplaceAll(s: string, target: string, rep: string): (r: string)
    requires |target| > 0
    ensures |rep| == |target| ==> |r| == |s|
    ensures |rep| <= |target| ==> |r| <= |s|
    ensures |rep| >= |target| ==> |r| >= |s|
    ensures rep == target ==> r == s
    decreases |s|
  {
    if |s| < |target| then s
    else if s[..|target|] == target then rep + ReplaceAll(s[|target|..], target, rep)
    else [s[0]] + ReplaceAll(s[1..], target, rep)
  }

  /** Text in which `target` does not occur comes back from `replace` unchanged. */
  lemma {:induction false} ReplaceAllAbsent(s: string, target: string, rep: string)
    requires |target| > 0 && !Contains(s, target)
    ensures ReplaceAll(s, target, rep) == s
    decreases |s|
  {
    if |s| >= |target| {
      assert !OccursAt(s, target, 0);
      assert s[..|target|] != target;
      if Contains(s[1..], target) {
        ContainsTail(s, target);
      }
      ReplaceAllAbsent(s[1..], target, rep);
    }
  }

  /** A target found at the front is replaced there. */
  lemma ReplaceAllAtFront(t: string, rest: string, rep: string)
    requires |t| > 0
    ensures ReplaceAll(t + rest, t, rep) == rep + ReplaceAll(rest, t, rep)
  {
    assert (t + rest)[..|t|] == t;
    assert (t + rest)[|t|..] == rest;
  }

  /** `s.lastIndexOf(c)`: the index of the last `c` in `s`, or -1. */
  function LastIndexOf(s: string, c: char): (r: int)
    ensures -1 <= r < |s|
    ensures r >= 0 ==> s[r] == c
    ensures forall j :: r < j < |s| ==> s[j] != c
  {
    if |s| == 0 then -1
    else if s[|s| - 1] == c then |s| - 1
    else LastIndexOf(s[..|s| - 1], c)
  }

  /** A character followed only by text without it is the last one. */
  lemma {:induction false} LastIndexOfBefore(s: string, c: char, t: string)
    requires c !in t
    ensures LastIndexOf(s + [c] + t, c) == |s|
    decreases |t|
  {
    var u := s + [c] + t;
    if t != [] {
      assert u[|u| - 1] == t[|t| - 1];
      assert u[..|u| - 1] == s + [c] + t[..|t| - 1];
      LastIndexOfBefore(s, c, t[..|t| - 1]);
    }
  }

  /** Every piece of `s` between separators, empty pieces included. */
  function Segments(s: string, seps: set<char>): (r: seq<string>)
    ensures |r| >= 1
    decreases |s|
  {
    if s == [] then [[]]
    else if s[0] in seps then [[]] + Segments(s[1..], seps)
    else var rest := Segments(s[1..], seps); [[s[0]] + rest[0]] + rest[1..]
  }

  predicate NoSeparator(s: string, seps: set<char>)
  {
    forall i :: 0 <= i < |s| ==> s[i] !in seps
  }

  /** Text without separators is a single piece. */
  lemma {:induction false} SegmentsNoSeparator(s: string, seps: set<char>)
    requires NoSeparator(s, seps)
    ensures Segments(s, seps) == [s]
    decreases |s|
  {
    if s != [] {
      SegmentsNoSeparator(s[1..], seps);
      assert [s[0]] + s[1..] == s;
    }
  }

  /** The first separator ends the first piece; the rest is split on its own. */
  lemma {:induction false} SegmentsAtSeparator(a: string, c: char, rest: string, seps: set<char>)
    requires NoSeparator(a, seps) && c in seps
    ensures Segments(a + [c] + rest, seps) == [a] + Segments(rest, seps)
    decreases |a|
  {
    var s := a + [c] + rest;
    if a == [] {
      assert s == [c] + rest;
      assert s[1..] == rest;
    } else {
      assert s[0] == a[0];
      assert s[1..] == a[1..] + [c] + rest;
      SegmentsAtSeparator(a[1..], c, rest, seps);
      assert [a[0]] + a[1..] == a;
    }
  }

  /** No piece contains a separator. */
  lemma {:induction false} SegmentsHaveNoSeparator(s: string, seps: set<char>)
    ensures forall j :: 0 <= j < |Segments(s, seps)| ==> NoSeparator(Segments(s, seps)[j], seps)
    decreases |s|
  {
    if s != [] {
      SegmentsHaveNoSeparator(s[1..], seps);
    }
  }

  /** All pieces are empty exactly when every character is a separator. */
  lemma {:induction false} SegmentsAllEmpty(s: string, seps: set<char>)
    ensures (forall j :: 0 <= j < |Segments(s, seps)| ==> Segments(s, seps)[j] == [])
        <==> (forall i :: 0 <= i < |s| ==> s[i] in seps)
    decreases |s|
  {
    if s != [] {
      SegmentsAllEmpty(s[1..], seps);
      if s[0] in seps {
        var r := Segments(s, seps);
        assert r == [[]] + Segments(s[1..], seps);
        var t := Segments(s[1..], seps);
        assert forall j :: 1 <= j < |r| ==> r[j] == t[j - 1];
        assert (forall j :: 0 <= j < |r| ==> r[j] == []) <==> (forall j :: 0 <= j < |t| ==> t[j] == []) by {
          if forall j :: 0 <= j < |t| ==> t[j] == [] {
            forall j | 0 <= j < |r| ensures r[j] == [] {
              if j > 0 { assert r[j] == t[j - 1]; }
            }
          }
          if forall j :: 0 <= j < |r| ==> r[j] == [] {
            forall j | 0 <= j < |t| ensures t[j] == [] {
              assert r[j + 1] == t[j];
            }
          }
        }
        assert (forall i :: 0 <= i < |s| ==> s[i] in seps) <==> (forall i :: 0 <= i < |s[1..]| ==> s[1..][i] in seps);
      } else {
        assert |Segments(s, seps)[0]| >= 1;
      }
    }
  }

  /** The list without its trailing empty strings. */
  function DropTrailingEmpty(xs: seq<string>): (r: seq<string>)
    ensures |r| <= |xs| && r == xs[..|r|]
    ensures r != [] ==> r[|r| - 1] != []
    ensures forall j :: |r| <= j < |xs| ==> xs[j] == []
  {
    if xs != [] && xs[|xs| - 1] == [] then DropTrailingEmpty(xs[..|xs| - 1]) else xs
  }

  /** `s.split(regex)` for a regex that matches exactly one character of `seps`. */
  function JavaSplit(s: string, seps: set<char>): (r: seq<string>)
    ensures forall j :: 0 <= j < |r| ==> NoSeparator(r[j], seps)
    ensures |r| <= |Segments(s, seps)|
  {
    SegmentsHaveNoSeparator(s, seps);
    if NoSeparator(s, seps) then [s] else DropTrailingEmpty(Segments(s, seps))
  }

  /** Text with a separator splits into more than `k` pieces exactly when some piece at index `k` or later is non-empty;
      the pieces kept are the leading pieces of `Segments`. */
  lemma JavaSplitLength(s: string, seps: set<char>, k: nat)
    requires !NoSeparator(s, seps)
    ensures JavaSplit(s, seps) == Segments(s, seps)[..|JavaSplit(s, seps)|]
    ensures |JavaSplit(s, seps)| > k <==>
            exists j :: k <= j < |Segments(s, seps)| && Segments(s, seps)[j] != []
  {
    var xs := Segments(s, seps);
    var r := DropTrailingEmpty(xs);
    if |r| > k {
      assert r[|r| - 1] == xs[|r| - 1];
    }
  }

  /** `String.join(sep, words)`. */
  function Join(words: seq<string>, sep: string): string
  {
    if |words| == 0 then []
    else if |words| == 1 then words[0]
    else words[0] + sep + Join(words[1..], sep)
  }

  /** Two texts joined at a character the left parts lack: the joins are equal only if the parts are. */
  lemma SplitAtFirst(a1: string, r1: string, a2: string, r2: string, c: char)
    requires c !in a1 && c !in a2
    requires a1 + [c] + r1 == a2 + [c] + r2
    ensures a1 == a2 && r1 == r2
  {
    var s := a1 + [c] + r1;
    assert s[|a1|] == c && (a2 + [c] + r2)[|a2|] == c;
    assert a1 == s[..|a1|] && a2 == s[..|a2|];
    assert r1 == s[|a1| + 1..] && r2 == s[|a2| + 1..];
  }

  /** Two texts joined at a character the right parts lack: the joins are equal only if the parts are. */
  lemma SplitAtLast(l1: string, b1: string, l2: string, b2: string, c: char)
    requires c !in b1 && c !in b2
    requires l1 + [c] + b1 == l2 + [c] + b2
    ensures l1 == l2 && b1 == b2
  {
    var s := l1 + [c] + b1;
    assert s[|l1|] == c && (l2 + [c] + b2)[|l2|] == c;
    assert l1 == s[..|l1|] && l2 == s[..|l2|];
    assert b1 == s[|l1| + 1..] && b2 == s[|l2| + 1..];
  }

  /** Joining one more word adds the separator and the word at the end. */
  lemma {:induction false} JoinAppend(words: seq<string>, w: string, sep: string)
    ensures Join(words + [w], sep) == if words == [] then w else Join(words, sep) + sep + w
    decreases |words|
  {
    if |words| >= 2 {
      assert (words + [w])[1..] == words[1..] + [w];
      JoinAppend(words[1..], w, sep);
    } else if |words| == 1 {
      assert (words + [w])[1..] == [w];
    }
  }

  /** A text without `c` does not contain any text that has `c`. */
  lemma MissingCharNotContained(s: string, t: string, c: char)
    requires c in t && c !in s
    ensures !Contains(s, t)
  {
    var k :| 0 <= k < |t| && t[k] == c;
    forall i | 0 <= i <= |s| - |t|
      ensures !OccursAt(s, t, i)
    {
      assert s[i..i + |t|][k] == s[i + k];
    }
  }

  /** The total length of a list of texts. */
  function SumLen(xs: seq<string>): nat
  {
    if xs == [] then 0 else SumLen(xs[..|xs| - 1]) + |xs[|xs| - 1]|
  }

  lemma {:induction false} SumLenCons(x: string, xs: seq<string>)
    ensures SumLen([x] + xs) == |x| + SumLen(xs)
    decreases |xs|
  {
    if xs != [] {
      assert ([x] + xs)[..|xs|] == [x] + xs[..|xs| - 1];
      SumLenCons(x, xs[..|xs| - 1]);
    }
  }

  lemma {:induction false} SumLenPrefix(xs: seq<string>, i: nat)
    requires i <= |xs|
    ensures SumLen(xs[..i]) <= SumLen(xs)
    decreases |xs| - i
  {
    if i < |xs| {
      assert xs[..i + 1][..i] == xs[..i];
      SumLenPrefix(xs, i + 1);
    } else {
      assert xs[..i] == xs;
    }
  }

  /** Deleting every `c` leaves exactly the characters of the pieces between the `c`s. */
  lemma {:induction false} RemovedLength(s: string, c: char)
    ensures |ReplaceAll(s, [c], [])| == SumLen(Segments(s, {c}))
    decreases |s|
  {
    if s == [] {
      assert Segments(s, {c}) == [[]];
      assert Segments(s, {c})[..0] == [];
    } else {
      RemovedLength(s[1..], c);
      var rest := Segments(s[1..], {c});
      if s[0] == c {
        assert s[..1] == [c];
        SumLenCons([], rest);
      } else {
        assert s[..1] != [c];
        assert rest == [rest[0]] + rest[1..];
        SumLenCons(rest[0], rest[1..]);
        SumLenCons([s[0]] + rest[0], rest[1..]);
      }
    }
  }

  /** Every character of every piece is a character of the text. */
  lemma {:induction false} SegmentsChars(s: string, seps: set<char>)
    ensures forall j, k :: 0 <= j < |Segments(s, seps)| && 0 <= k < |Segments(s, seps)[j]| ==> Segments(s, seps)[j][k] in s
    decreases |s|
  {
    if s != [] {
      SegmentsChars(s[1..], seps);
      assert forall x :: x in s[1..] ==> x in s;
    }
  }

  /** `s.indexOf(c)`: the first index of `c`, or -1 when there is none. */
  function IndexOf(s: string, c: char): (r: int)
    ensures -1 <= r < |s|
    ensures r >= 0 ==> s[r] == c
    ensures r < 0 <==> c !in s
    ensures forall j :: 0 <= j < r ==> s[j] != c
    decreases |s|
  {
    if s == [] then -1
    else if s[0] == c then 0
    else var k := IndexOf(s[1..], c); if k < 0 then -1 else k + 1
  }

  /** A `c` after a text without `c` is the first one. */
  lemma IndexOfBefore(s: string, c: char, t: string)
    requires c !in s
    ensures IndexOf(s + [c] + t, c) == |s|
  {
    var u := s + [c] + t;
    assert u[|s|] == c;
  }

  /** The text before the first `c`, or all of `s` when it has none. */
  function UpTo(s: string, c: char): (r: string)
    ensures c !in r && |r| <= |s| && r == s[..|r|]
    ensures |r| < |s| ==> s[|r|] == c
  {
    if c in s then s[..IndexOf(s, c)] else s
  }

  /** The text after the first `c`, or "" when it has none. */
  function After(s: string, c: char): (r: string)
    ensures c in s ==> r == s[|UpTo(s, c)| + 1..]
  {
    if c in s then s[IndexOf(s, c) + 1..] else []
  }

  /** The first piece of a split at `c` is the text before the first `c`; the pieces after it are those of the text after it. */
  lemma SplitAtFirstSeparator(s: string, c: char)
    ensures Segments(s, {c})[0] == UpTo(s, c)
    ensures c in s ==> Segments(s, {c})[1..] == Segments(After(s, c), {c})
  {
    if c in s {
      var k := IndexOf(s, c);
      var before, after := s[..k], s[k + 1..];
      assert NoSeparator(before, {c});
      assert s == before + [c] + after;
      SegmentsAtSeparator(before, c, after, {c});
      assert UpTo(s, c) == before && After(s, c) == after;
    } else {
      SegmentsNoSeparator(s, {c});
    }
  }
}
