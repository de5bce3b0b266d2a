/** Splitting a string on one separator character, as .NET's `String.Split(char)`
    does with no options: every separator ends a field, nothing is trimmed, empty
    fields are kept, and the result always holds at least one field. `Join` is its
    inverse. */
module Fields {

  /** The number of times `c` occurs in `s`. */
  function Occurrences(s: string, c: char): (n: nat)
  {
    if s == [] then 0 else (if s[0] == c then 1 else 0) + Occurrences(s[1..], c)
  }

  /** The position of the first `c` in `s`. */
  function IndexOf(s: string, c: char): (i: nat)
    requires c in s
    ensures i < |s| && s[i] == c && c !in s[..i]
  {
    if s[0] == c then 0
    else
      assert s == [s[0]] + s[1..];
      var k := IndexOf(s[1..], c);
      assert s[..k + 1] == [s[0]] + s[1..][..k];
      k + 1
  }

  /** `s.Split(sep)`: the text before the first separator, then the fields of
      the text after it; a string with no separator is one field. */
  function Split(s: string, sep: char): (parts: seq<string>)
    ensures |parts| >= 1
    decreases |s|
  {
    if sep !in s then [s]
    else
      var i := IndexOf(s, sep);
      [s[..i]] + Split(s[i + 1..], sep)
  }

  /** `String.Join(sep, parts)`: the fields with one separator between neighbours. */
  function Join(parts: seq<string>, sep: char): (s: string)
  {
    if |parts| == 0 then ""
    else if |parts| == 1 then parts[0]
    else parts[0] + [sep] + Join(parts[1..], sep)
  }

  /** Counting splits at a position: the occurrences in `s[..i]`, plus the
      occurrences in `s[i..]`. */
  lemma {:induction false} OccurrencesSplitAt(s: string, c: char, i: nat)
    requires i <= |s|
    ensures Occurrences(s, c) == Occurrences(s[..i], c) + Occurrences(s[i..], c)
    decreases i
  {
    if i > 0 {
      assert s[..i][1..] == s[1..][..i - 1];
      assert s[i..] == s[1..][i - 1..];
      OccurrencesSplitAt(s[1..], c, i - 1);
    }
  }

  /** A string without `c` has no occurrence of it. */
  lemma {:induction false} OccurrencesAbsent(s: string, c: char)
    requires c !in s
    ensures Occurrences(s, c) == 0
    decreases |s|
  {
    if s != [] {
      assert c !in s[1..];
      OccurrencesAbsent(s[1..], c);
    }
  }

  /** A split has one field more than the string has separators. */
  lemma {:induction false} SplitCount(s: string, sep: char)
    ensures |Split(s, sep)| == Occurrences(s, sep) + 1
    decreases |s|
  {
    if sep !in s {
      OccurrencesAbsent(s, sep);
    } else {
      var i := IndexOf(s, sep);
      SplitCount(s[i + 1..], sep);
      OccurrencesSplitAt(s, sep, i);
      OccurrencesAbsent(s[..i], sep);
      assert s[i..][1..] == s[i + 1..];
    }
  }

  /** No field of a split holds the separator, and every character of a field is
      a character of the split string. */
  lemma {:induction false} SplitFields(s: string, sep: char)
    ensures forall i :: 0 <= i < |Split(s, sep)| ==> sep !in Split(s, sep)[i]
    ensures forall i, ch :: 0 <= i < |Split(s, sep)| && ch in Split(s, sep)[i] ==> ch in s
    decreases |s|
  {
    if sep in s {
      var k := IndexOf(s, sep);
      var rest := Split(s[k + 1..], sep);
      SplitFields(s[k + 1..], sep);
      assert forall ch :: ch in s[..k] ==> ch in s;
      assert forall ch :: ch in s[k + 1..] ==> ch in s;
      assert Split(s, sep) == [s[..k]] + rest;
    }
  }

  /** Every character of a join is a character of some field or the separator. */
  lemma {:induction false} JoinChars(parts: seq<string>, sep: char, ch: char)
    requires ch in Join(parts, sep)
    ensures ch == sep || exists i :: 0 <= i < |parts| && ch in parts[i]
    decreases |parts|
  {
    if |parts| > 1 {
      var tail := Join(parts[1..], sep);
      assert ch in parts[0] + [sep] + tail;
      if ch in tail {
        JoinChars(parts[1..], sep, ch);
        if ch != sep {
          var i :| 0 <= i < |parts[1..]| && ch in parts[1..][i];
          assert ch in parts[i + 1];
        }
      }
    }
  }

  /** The first `c` is the only `c` with none before it. */
  lemma IndexOfUnique(s: string, c: char, k: nat)
    requires k < |s| && s[k] == c && c !in s[..k]
    ensures IndexOf(s, c) == k
  {
  }

  /** A separator-free prefix ended by a separator is the first field. */
  lemma SplitAppendFirst(a: string, b: string, sep: char)
    requires sep !in a
    ensures Split(a + [sep] + b, sep) == [a] + Split(b, sep)
  {
    var s := a + [sep] + b;
    assert s[..|a|] == a && s[|a|] == sep && s[|a| + 1..] == b;
    IndexOfUnique(s, sep, |a|);
  }

  /** Splitting distributes over a separator: the fields of `a + [sep] + b` are the
      fields of `a` followed by the fields of `b`. */
  lemma {:induction false} SplitAppend(a: string, b: string, sep: char)
    ensures Split(a + [sep] + b, sep) == Split(a, sep) + Split(b, sep)
    decreases |a|
  {
    if sep !in a {
      SplitAppendFirst(a, b, sep);
    } else {
      var j := IndexOf(a, sep);
      var p, t := a[..j], a[j + 1..];
      var u := t + [sep] + b;
      assert a == p + [sep] + t;
      assert a + [sep] + b == p + [sep] + u;
      SplitAppend(t, b, sep);
      var ft, fb := Split(t, sep), Split(b, sep);
      calc {
        Split(a + [sep] + b, sep);
        Split(p + [sep] + u, sep);
        { SplitAppendFirst(p, u, sep); }
        [p] + Split(u, sep);
        [p] + (ft + fb);
        ([p] + ft) + fb;
        { SplitAppendFirst(p, t, sep); }
        Split(p + [sep] + t, sep) + fb;
        Split(a, sep) + fb;
      }
    }
  }
  /** A string without the separator is a single field. */
  lemma SplitWithoutSeparator(s: string, sep: char)
    requires sep !in s
    ensures Split(s, sep) == [s]
  {
  }

  /** Joining the fields of a split gives back the string. */
  lemma {:induction false} JoinSplit(s: string, sep: char)
    ensures Join(Split(s, sep), sep) == s
    decreases |s|
  {
    if sep in s {
      var k := IndexOf(s, sep);
      var first, rest := s[..k], s[k + 1..];
      assert s == first + [sep] + rest;
      JoinSplit(rest, sep);
      var parts := [first] + Split(rest, sep);
      calc {
        Join(Split(s, sep), sep);
        Join(parts, sep);
        { assert parts[1..] == Split(rest, sep); }
        first + [sep] + Join(Split(rest, sep), sep);
        first + [sep] + rest;
      }
    }
  }

  /** Splitting a join of separator-free fields gives back the fields. */
  lemma {:induction false} SplitJoin(parts: seq<string>, sep: char)
    requires |parts| >= 1
    requires forall i :: 0 <= i < |parts| ==> sep !in parts[i]
    ensures Split(Join(parts, sep), sep) == parts
    decreases |parts|
  {
    if |parts| > 1 {
      var rest := parts[1..];
      SplitJoin(rest, sep);
      calc {
        Split(Join(parts, sep), sep);
        Split(parts[0] + [sep] + Join(rest, sep), sep);
        { SplitAppendFirst(parts[0], Join(rest, sep), sep); }
        [parts[0]] + Split(Join(rest, sep), sep);
        [parts[0]] + rest;
        parts;
      }
    }
  }
}
