/** Text operations the script relies on: Python's `str.split("\n")`, its
    inverse `"\n".join(...)`, and substring containment. */
module Text {

  /** Number of occurrences of character `c` in `s`. */
  function CountChar(s: string, c: char): nat
  {
    if s == [] then 0 else (if s[0] == c then 1 else 0) + CountChar(s[1..], c)
  }

  /** Python `s.split("\n")`: the maximal newline-free segments of `s`, in order.
      The empty string splits into one empty segment, and every newline adds one. */
  function Split(s: string): (r: seq<string>)
    ensures |r| == CountChar(s, '\n') + 1
    decreases |s|
  {
    if s == [] then [[]]
    else if s[0] == '\n' then [[]] + Split(s[1..])
    else
      var rest := Split(s[1..]);
      [[s[0]] + rest[0]] + rest[1..]
  }

  /** Python `"\n".join(parts)` for a non-empty list of parts. */
  function Join(parts: seq<string>): string
    requires |parts| >= 1
    decreases |parts|
  {
    if |parts| == 1 then parts[0] else parts[0] + "\n" + Join(parts[1..])
  }

  /** `t` occurs in `s` starting at index `i`. */
  predicate OccursAt(s: string, t: string, i: nat)
  {
    i + |t| <= |s| && s[i..i + |t|] == t
  }

  /** `t` occurs as a contiguous piece of `s`. */
  predicate Contains(s: string, t: string)
  {
    exists i: nat :: i <= |s| && OccursAt(s, t, i)
  }

  /** No segment produced by Split contains a newline. */
  lemma {:induction false} SplitSegmentsNewlineFree(s: string)
    ensures forall k :: 0 <= k < |Split(s)| ==> '\n' !in Split(s)[k]
    decreases |s|
  {
    if s != [] {
      SplitSegmentsNewlineFree(s[1..]);
    }
  }

  lemma {:induction false} JoinConsHead(a: string, parts: seq<string>)
    requires |parts| >= 1
    ensures Join([a + parts[0]] + parts[1..]) == a + Join(parts)
  {
    var glued := [a + parts[0]] + parts[1..];
    if |parts| > 1 {
      assert glued[0] == a + parts[0] && glued[1..] == parts[1..];
      var j := Join(parts[1..]);
      calc {
        Join(glued);
        (a + parts[0]) + "\n" + j;
        a + (parts[0] + "\n" + j);
        a + Join(parts);
      }
    } else {
      assert [a + parts[0]] + parts[1..] == [a + parts[0]];
    }
  }

  /** Splitting loses nothing: joining the segments back gives the text. */
  lemma {:induction false} JoinSplit(s: string)
    ensures Join(Split(s)) == s
    decreases |s|
  {
    if s == [] {
    } else if s[0] == '\n' {
      JoinSplit(s[1..]);
      assert ([[]] + Split(s[1..]))[1..] == Split(s[1..]);
      assert s == "\n" + s[1..];
    } else {
      var rest := Split(s[1..]);
      JoinSplit(s[1..]);
      JoinConsHead([s[0]], rest);
      assert s == [s[0]] + s[1..];
    }
  }

  /** Splitting a newline-free prefix glued onto `t` only extends the first segment of `t`. */
  lemma {:induction false} SplitNewlineFreePrefix(p: string, t: string)
    requires '\n' !in p
    ensures Split(p + t) == [p + Split(t)[0]] + Split(t)[1..]
    decreases |p|
  {
    if p == [] {
      assert p + t == t;
      assert p + Split(t)[0] == Split(t)[0];
      assert [p + Split(t)[0]] + Split(t)[1..] == [Split(t)[0]] + Split(t)[1..];
    } else {
      assert (p + t)[0] == p[0];
      assert (p + t)[1..] == p[1..] + t;
      SplitNewlineFreePrefix(p[1..], t);
      assert [p[0]] + (p[1..] + Split(t)[0]) == p + Split(t)[0];
    }
  }

  /** Joining newline-free parts and splitting again gives the parts back. */
  lemma {:induction false} SplitJoin(parts: seq<string>)
    requires |parts| >= 1
    requires forall k :: 0 <= k < |parts| ==> '\n' !in parts[k]
    ensures Split(Join(parts)) == parts
    decreases |parts|
  {
    if |parts| == 1 {
      SplitNewlineFreePrefix(parts[0], []);
      assert parts[0] + [] == parts[0];
    } else {
      var j := Join(parts[1..]);
      SplitJoin(parts[1..]);
      assert ("\n" + j)[0] == '\n' && ("\n" + j)[1..] == j;
      assert Split("\n" + j) == [[]] + parts[1..];
      assert parts[0] + "\n" + j == parts[0] + ("\n" + j);
      SplitNewlineFreePrefix(parts[0], "\n" + j);
      assert parts[0] + [] == parts[0];
      assert ([[]] + parts[1..])[1..] == parts[1..];
    }
  }

  /** The pieces of an f-string, literal text and fields alike, glued in order. */
  function Concat(parts: seq<string>): string
    decreases |parts|
  {
    if parts == [] then [] else parts[0] + Concat(parts[1..])
  }

  /** Gluing more text before a string keeps what it contains. */
  lemma ContainsAfterPrefix(u: string, s: string, t: string)
    requires Contains(s, t)
    ensures Contains(u + s, t)
  {
    var i: nat :| i <= |s| && OccursAt(s, t, i);
    assert (u + s)[|u| + i..|u| + i + |t|] == s[i..i + |t|];
    assert OccursAt(u + s, t, |u| + i);
  }

  /** Every piece of an f-string occurs in the string it builds. */
  lemma {:induction false} ContainsPart(parts: seq<string>, k: nat)
    requires k < |parts|
    ensures Contains(Concat(parts), parts[k])
    decreases |parts|
  {
    if k == 0 {
      assert OccursAt(Concat(parts), parts[0], 0);
    } else {
      ContainsPart(parts[1..], k - 1);
      ContainsAfterPrefix(parts[0], Concat(parts[1..]), parts[k]);
    }
  }

  /** A character that occurs in no piece does not occur in the glued string. */
  lemma {:induction false} ConcatLacks(parts: seq<string>, c: char)
    requires forall k :: 0 <= k < |parts| ==> c !in parts[k]
    ensures c !in Concat(parts)
    decreases |parts|
  {
    if parts != [] {
      ConcatLacks(parts[1..], c);
    }
  }

  /** A piece glued between two strings is contained in the result. */
  lemma ContainsMiddle(a: string, t: string, b: string)
    ensures Contains(a + t + b, t)
  {
    assert OccursAt(a + t + b, t, |a|);
  }

  /** A string that holds `t` holds every character of `t`. */
  lemma ContainsCharOf(s: string, t: string, k: nat)
    requires Contains(s, t)
    requires k < |t|
    ensures t[k] in s
  {
    var i: nat :| i <= |s| && OccursAt(s, t, i);
    assert s[i + k] == t[k];
  }
}
