/** The few Python string operations the staging workflow relies on:
    `str.lower`, `str.split(sep)`, `sep.join(parts)` and `str.rsplit(sep, 1)`,
    plus a prefix-up-to-separator helper used to read names back. */
module Strings {

  /** `ch.lower()` for ASCII letters; every other character is left as it is. */
  function LowerChar(ch: char): (r: char)
    ensures !('A' <= r <= 'Z')
    ensures !('A' <= ch <= 'Z') ==> r == ch
  {
    if 'A' <= ch <= 'Z' then (ch as int - 'A' as int + 'a' as int) as char else ch
  }

  /** `s.lower()`: the string with every upper-case ASCII letter lowered. */
  function Lower(s: string): (r: string)
    ensures |r| == |s|
    ensures forall i :: 0 <= i < |s| ==> r[i] == LowerChar(s[i])
    ensures forall i :: 0 <= i < |r| ==> !('A' <= r[i] <= 'Z')
  {
    if s == [] then [] else [LowerChar(s[0])] + Lower(s[1..])
  }

  /** `s.split(sep)`: the maximal separator-free pieces between occurrences of
      `sep`, empty pieces included ("" gives [""], "-" gives ["", ""]). */
  function Split(s: string, sep: char): (parts: seq<string>)
    ensures |parts| >= 1
    ensures forall i :: 0 <= i < |parts| ==> sep !in parts[i]
    decreases |s|
  {
    if s == [] then [[]]
    else
      var rest := Split(s[1..], sep);
      if s[0] == sep then [[]] + rest
      else [[s[0]] + rest[0]] + rest[1..]
  }

  /** `sep.join(parts)`. */
  function Join(parts: seq<string>, sep: char): string
  {
    if |parts| == 0 then []
    else if |parts| == 1 then parts[0]
    else parts[0] + [sep] + Join(parts[1..], sep)
  }

  /** Joining three pieces puts the separator between them. */
  lemma JoinThree(a: string, b: string, c: string, sep: char)
    ensures Join([a, b, c], sep) == a + [sep] + b + [sep] + c
  {
    assert [a, b, c][1..] == [b, c];
    assert [b, c][1..] == [c];
    assert Join([b, c], sep) == b + [sep] + c;
  }

  /** Joining the pieces of a split gives back the original string. */
  lemma {:induction false} JoinOfSplit(s: string, sep: char)
    ensures Join(Split(s, sep), sep) == s
    decreases |s|
  {
    if s != [] {
      var rest := Split(s[1..], sep);
      JoinOfSplit(s[1..], sep);
      if s[0] == sep {
        assert ([[]] + rest)[1..] == rest;
      } else if |rest| > 1 {
        assert ([[s[0]] + rest[0]] + rest[1..])[1..] == rest[1..];
      }
    }
  }

  /** A separator-free string is a single piece. */
  lemma {:induction false} SplitWithoutSeparator(p: string, sep: char)
    requires sep !in p
    ensures Split(p, sep) == [p]
    decreases |p|
  {
    if p != [] {
      SplitWithoutSeparator(p[1..], sep);
      assert [p[0]] + p[1..] == p;
    }
  }

  /** A separator-free piece followed by the separator is split off first. */
  lemma {:induction false} SplitAtSeparator(p: string, sep: char, t: string)
    requires sep !in p
    ensures Split(p + [sep] + t, sep) == [p] + Split(t, sep)
    decreases |p|
  {
    var s := p + [sep] + t;
    if p == [] {
      assert s[1..] == t;
    } else {
      assert s[1..] == p[1..] + [sep] + t;
      SplitAtSeparator(p[1..], sep, t);
      assert [p[0]] + p[1..] == p;
    }
  }

  /** Splitting a join of separator-free pieces gives back the pieces. */
  lemma {:induction false} SplitOfJoin(parts: seq<string>, sep: char)
    requires |parts| >= 1
    requires forall i :: 0 <= i < |parts| ==> sep !in parts[i]
    ensures Split(Join(parts, sep), sep) == parts
    decreases |parts|
  {
    if |parts| == 1 {
      SplitWithoutSeparator(parts[0], sep);
    } else {
      SplitAtSeparator(parts[0], sep, Join(parts[1..], sep));
      SplitOfJoin(parts[1..], sep);
      assert [parts[0]] + parts[1..] == parts;
    }
  }

  /** The text after the last `sep` (all of `s` when there is none). */
  function AfterLast(s: string, sep: char): (r: string)
    ensures sep !in r
    ensures |r| <= |s| && r == s[|s| - |r|..]
    decreases |s|
  {
    if s == [] || s[|s| - 1] == sep then []
    else AfterLast(s[..|s| - 1], sep) + [s[|s| - 1]]
  }

  /** The text before the last `sep`. */
  function BeforeLast(s: string, sep: char): (r: string)
    requires sep in s
    ensures |r| < |s| && r == s[..|r|]
    decreases |s|
  {
    if s[|s| - 1] == sep then s[..|s| - 1]
    else
      assert sep in s[..|s| - 1] by {
        var i :| 0 <= i < |s| && s[i] == sep;
        assert s[..|s| - 1][i] == sep;
      }
      BeforeLast(s[..|s| - 1], sep)
  }

  /** A string holding `sep` is what comes before its last `sep`, the
      separator itself, and what comes after it. */
  lemma {:induction false} LastSeparator(s: string, sep: char)
    requires sep in s
    ensures s == BeforeLast(s, sep) + [sep] + AfterLast(s, sep)
    decreases |s|
  {
    var init := s[..|s| - 1];
    var last := s[|s| - 1];
    assert s == init + [last];
    if last == sep {
      assert AfterLast(s, sep) == [];
    } else {
      assert sep in init by {
        var i :| 0 <= i < |s| && s[i] == sep;
        assert init[i] == sep;
      }
      LastSeparator(init, sep);
      var before, after := BeforeLast(init, sep), AfterLast(init, sep);
      assert BeforeLast(s, sep) == before;
      assert AfterLast(s, sep) == after + [last];
      assert before + [sep] + (after + [last]) == (before + [sep] + after) + [last];
    }
  }

  /** Appending the separator makes it the last one. */
  lemma SeparatorAppended(p: string, sep: char)
    ensures BeforeLast(p + [sep], sep) == p
    ensures AfterLast(p + [sep], sep) == []
  {
    var s := p + [sep];
    assert s[|s| - 1] == sep && s[..|s| - 1] == p;
  }

  /** Appending another character moves neither the last separator nor
      what precedes it, and extends what follows it. */
  lemma OtherAppended(init: string, c: char, sep: char)
    requires sep in init
    requires c != sep
    ensures sep in init + [c]
    ensures BeforeLast(init + [c], sep) == BeforeLast(init, sep)
    ensures AfterLast(init + [c], sep) == AfterLast(init, sep) + [c]
  {
    var s := init + [c];
    assert s[|s| - 1] == c && s[..|s| - 1] == init;
  }

  /** The decomposition at the last separator is unique: a separator-free
      tail after a separator is exactly what `AfterLast` finds. */
  lemma {:induction false} LastSeparatorUnique(p: string, sep: char, e: string)
    requires sep !in e
    ensures sep in p + [sep] + e
    ensures BeforeLast(p + [sep] + e, sep) == p
    ensures AfterLast(p + [sep] + e, sep) == e
    decreases |e|
  {
    assert (p + [sep] + e)[|p|] == sep;
    if e == [] {
      assert p + [sep] + e == p + [sep];
      SeparatorAppended(p, sep);
    } else {
      var e', last := e[..|e| - 1], e[|e| - 1];
      assert e' + [last] == e;
      forall i | 0 <= i < |e'|
        ensures e'[i] != sep
      {
        assert e'[i] == e[i];
      }
      LastSeparatorUnique(p, sep, e');
      assert p + [sep] + e == (p + [sep] + e') + [last];
      OtherAppended(p + [sep] + e', last, sep);
    }
  }

  /** `s.rsplit(sep, 1)`: one piece when `sep` does not occur, otherwise the
      text before and after its last occurrence. */
  function RSplitOnce(s: string, sep: char): (parts: seq<string>)
    ensures |parts| == if sep in s then 2 else 1
    ensures Join(parts, sep) == s
    ensures |parts| == 2 ==> sep !in parts[1]
  {
    if sep in s then
      LastSeparator(s, sep);
      [BeforeLast(s, sep), AfterLast(s, sep)]
    else [s]
  }

  /** The prefix of `s` up to (not including) the first `stop`. */
  function TakeUntil(s: string, stop: char): (r: string)
    ensures stop !in r
    ensures |r| <= |s| && r == s[..|r|]
    decreases |s|
  {
    if s == [] || s[0] == stop then [] else [s[0]] + TakeUntil(s[1..], stop)
  }

  /** A stop-free prefix followed by the stop character is what `TakeUntil` reads. */
  lemma {:induction false} TakeUntilStop(a: string, stop: char, b: string)
    requires stop !in a
    ensures TakeUntil(a + [stop] + b, stop) == a
    decreases |a|
  {
    var s := a + [stop] + b;
    if a != [] {
      assert s[1..] == a[1..] + [stop] + b;
      TakeUntilStop(a[1..], stop, b);
      assert [a[0]] + a[1..] == a;
    }
  }
}
