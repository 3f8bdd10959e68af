/** String helpers standing in for the Python built-ins the monitor relies on:
    str.split with a one-character separator, str.join, str.lstrip of one
    character, ASCII str.lower and the substring test `word in text`. */
module Strings {

  /** Position of the first occurrence of `c` in `s`. */
  function IndexOf(s: string, c: char): (i: nat)
    requires c in s
    ensures i < |s| && s[i] == c && c !in s[..i]
  {
    if s[0] == c then 0
    else
      assert s == [s[0]] + s[1..];
      var j := IndexOf(s[1..], c);
      assert s[..j + 1] == [s[0]] + s[1..][..j];
      j + 1
  }

  /** `sep.join(parts)`. */
  function Join(parts: seq<string>, sep: string): (s: string)
    ensures |parts| > 0 ==> parts[0] <= s
  {
    if |parts| == 0 then ""
    else if |parts| == 1 then parts[0]
    else parts[0] + sep + Join(parts[1..], sep)
  }

  /** The first piece of a split is everything before the first separator. */
  lemma SplitHead(s: string, sep: char, i: nat)
    requires i < |s| && s[i] == sep && sep !in s[..i]
    ensures Split(s, sep)[0] == s[..i]
  {
    var j := IndexOf(s, sep);
    assert s[..i][..j] == s[..j];
    assert s[..j][..i] == s[..i];
  }

  /** `s.split(sep)`: the maximal pieces of `s` between occurrences of `sep`;
      there is always at least one piece (the empty string splits to [""]). */
  function Split(s: string, sep: char): (parts: seq<string>)
    ensures |parts| >= 1
    decreases |s|
  {
    if sep !in s then [s]
    else
      var i := IndexOf(s, sep);
      [s[..i]] + Split(s[i + 1..], sep)
  }

  /** No piece of a split holds the separator. */
  lemma {:induction false} SplitPiecesAvoidSep(s: string, sep: char)
    ensures forall i :: 0 <= i < |Split(s, sep)| ==> sep !in Split(s, sep)[i]
    decreases |s|
  {
    if sep in s {
      var i := IndexOf(s, sep);
      SplitPiecesAvoidSep(s[i + 1..], sep);
    }
  }

  /** Splitting a separator-free string followed by nothing or by the
      separator and more: the string is the first piece, and there are further
      pieces exactly when something follows. */
  lemma SplitAtFirst(core: string, suffix: string, sep: char)
    requires sep !in core
    requires suffix == [] || suffix[0] == sep
    ensures Split(core + suffix, sep)[0] == core
    ensures |Split(core + suffix, sep)| > 1 <==> suffix != []
  {
    var s := core + suffix;
    if suffix == [] {
      assert s == core;
    } else {
      assert s[..|core|] == core;
      SplitHead(s, sep, |core|);
    }
  }

  lemma JoinCons(p: string, rest: seq<string>, sep: string)
    requires |rest| >= 1
    ensures Join([p] + rest, sep) == p + sep + Join(rest, sep)
  {
    assert ([p] + rest)[1..] == rest;
  }

  /** Joining the pieces of a split with the separator gives back the string. */
  lemma {:induction false} JoinSplit(s: string, sep: char)
    ensures Join(Split(s, sep), [sep]) == s
    decreases |s|
  {
    if sep in s {
      var i := IndexOf(s, sep);
      JoinSplit(s[i + 1..], sep);
      JoinCons(s[..i], Split(s[i + 1..], sep), [sep]);
      assert s == s[..i] + [sep] + s[i + 1..];
    }
  }

  /** Splitting a join of separator-free pieces gives back the pieces. */
  lemma {:induction false} SplitJoin(parts: seq<string>, sep: char)
    requires |parts| >= 1
    requires forall i :: 0 <= i < |parts| ==> sep !in parts[i]
    ensures Split(Join(parts, [sep]), sep) == parts
  {
    if |parts| == 1 {
    } else {
      var s := Join(parts, [sep]);
      var rest := parts[1..];
      JoinCons(parts[0], rest, [sep]);
      assert parts == [parts[0]] + rest;
      assert s == parts[0] + [sep] + Join(rest, [sep]);
      assert s[|parts[0]|] == sep;
      assert sep in s;
      var i := IndexOf(s, sep);
      assert i == |parts[0]| by {
        assert s[..|parts[0]|] == parts[0];
      }
      assert s[..i] == parts[0];
      assert s[i + 1..] == Join(rest, [sep]);
      SplitJoin(rest, sep);
    }
  }

  /** A character other than the separator lies in one of the pieces. */
  lemma {:induction false} SplitKeeps(s: string, sep: char, j: nat) returns (k: nat, m: nat)
    requires j < |s| && s[j] != sep
    ensures k < |Split(s, sep)| && m < |Split(s, sep)[k]| && Split(s, sep)[k][m] == s[j]
    decreases |s|
  {
    if sep !in s {
      k, m := 0, j;
    } else {
      var i := IndexOf(s, sep);
      if j < i {
        SplitHead(s, sep, i);
        k, m := 0, j;
      } else {
        assert j != i;
        var k', m' := SplitKeeps(s[i + 1..], sep, j - i - 1);
        assert s[i + 1..][j - i - 1] == s[j];
        k, m := k' + 1, m';
      }
    }
  }

  /** The character `c` repeated `n` times. */
  function Repeat(c: char, n: nat): (r: string)
    ensures |r| == n && forall i :: 0 <= i < n ==> r[i] == c
  {
    if n == 0 then "" else [c] + Repeat(c, n - 1)
  }

  /** `s.lstrip(c)`: `s` without its leading run of `c`. */
  function LStrip(s: string, c: char): (r: string)
    ensures |r| <= |s|
    ensures r == [] || r[0] != c
  {
    if |s| > 0 && s[0] == c then LStrip(s[1..], c) else s
  }

  /** What `lstrip` removes is a run of `c`, and only that. */
  lemma {:induction false} LStripRemovesRun(s: string, c: char)
    ensures s == Repeat(c, |s| - |LStrip(s, c)|) + LStrip(s, c)
  {
    if |s| > 0 && s[0] == c {
      LStripRemovesRun(s[1..], c);
      assert s == [c] + s[1..];
    }
  }

  /** Stripping a run of `c` in front of a string that does not start with `c`
      leaves that string. */
  lemma {:induction false} LStripRepeat(c: char, n: nat, s: string)
    requires s == [] || s[0] != c
    ensures LStrip(Repeat(c, n) + s, c) == s
  {
    if n > 0 {
      assert (Repeat(c, n) + s)[1..] == Repeat(c, n - 1) + s;
      LStripRepeat(c, n - 1, s);
    } else {
      assert Repeat(c, n) + s == s;
    }
  }

  function LowerChar(ch: char): char
  {
    if 'A' <= ch <= 'Z' then (ch as int - 'A' as int + 'a' as int) as char else ch
  }

  /** `s.lower()` over ASCII letters; every other character is kept. */
  function Lower(s: string): (r: string)
    ensures |r| == |s| && forall i :: 0 <= i < |s| ==> r[i] == LowerChar(s[i])
  {
    if s == [] then [] else [LowerChar(s[0])] + Lower(s[1..])
  }

  /** `word` occurs in `text` starting at position `i`. */
  predicate OccursAt(text: string, word: string, i: int)
  {
    0 <= i && i + |word| <= |text| && text[i..i + |word|] == word
  }

  /** `word in text`: `word` occurs at some position of `text`. */
  function Contains(text: string, word: string): (found: bool)
    ensures found <==> exists i :: OccursAt(text, word, i)
    decreases |text|
  {
    if OccursAt(text, word, 0) then
      true
    else if |text| == 0 then
      false
    else
      var found := Contains(text[1..], word);
      if found then
        var i :| OccursAt(text[1..], word, i);
        assert text[i + 1..i + 1 + |word|] == text[1..][i..i + |word|];
        assert OccursAt(text, word, i + 1);
        true
      else
        forall i | i > 0
          ensures OccursAt(text, word, i) ==> OccursAt(text[1..], word, i - 1)
        {
          OccursShift(text, word, i);
        }
        false
  }

  /** An occurrence past the first character is an occurrence in the rest. */
  lemma OccursShift(text: string, word: string, i: int)
    requires i > 0
    ensures OccursAt(text, word, i) ==> OccursAt(text[1..], word, i - 1)
  {
    if OccursAt(text, word, i) {
      var here := text[i..i + |word|];
      var there := text[1..][i - 1..i - 1 + |word|];
      forall k | 0 <= k < |word|
        ensures here[k] == there[k]
      {
      }
      assert here == there;
    }
  }

  /** Every character of a join comes from a piece or from the separator. */
  lemma {:induction false} JoinExcludes(parts: seq<string>, sep: string, c: char)
    requires c !in sep
    requires forall i :: 0 <= i < |parts| ==> c !in parts[i]
    ensures c !in Join(parts, sep)
  {
    if |parts| > 1 {
      JoinExcludes(parts[1..], sep, c);
    }
  }

  /** A join starts with its first piece. */
  lemma JoinStartsWithFirst(parts: seq<string>, sep: string)
    requires |parts| >= 1
    ensures |parts[0]| <= |Join(parts, sep)| && Join(parts, sep)[..|parts[0]|] == parts[0]
  {
  }

  /** What follows the first piece of a split: empty, or the separator and the rest. */
  lemma SplitFirst(s: string, sep: char) returns (suffix: string)
    ensures s == Split(s, sep)[0] + suffix
    ensures suffix == [] || suffix[0] == sep
  {
    var parts := Split(s, sep);
    JoinSplit(s, sep);
    if |parts| == 1 {
      suffix := "";
    } else {
      suffix := [sep] + Join(parts[1..], [sep]);
      JoinCons(parts[0], parts[1..], [sep]);
      assert [parts[0]] + parts[1..] == parts;
    }
  }
}
