/** Text primitives the Unity scripts take from the .NET runtime: ASCII
    lower-casing, splitting on a set of separator characters (as
    String.Split(char[]) does, keeping empty entries) and splitting on the
    two-character line break "\r\n". */
module Text {

  /** Lower-cases one character; only the ASCII letters A-Z are mapped. */
  function LowerChar(c: char): (r: char)
    ensures 'A' <= c <= 'Z' ==> 'a' <= r <= 'z' && r as int == c as int + 32
    ensures !('A' <= c <= 'Z') ==> r == c
  {
    if 'A' <= c <= 'Z' then (c as int + 32) as char else c
  }

  function Lower(s: string): (r: string)
    ensures |r| == |s|
    ensures forall i :: 0 <= i < |s| ==> r[i] == LowerChar(s[i])
  {
    if |s| == 0 then "" else [LowerChar(s[0])] + Lower(s[1..])
  }

  predicate HasNoUpper(s: string) {
    forall i :: 0 <= i < |s| ==> !('A' <= s[i] <= 'Z')
  }

  /** Lower-casing leaves no upper-case ASCII letter and is idempotent. */
  lemma {:induction false} LowerIsIdempotent(s: string)
    ensures HasNoUpper(Lower(s))
    ensures Lower(Lower(s)) == Lower(s)
  {
  }

  /** The characters Char.IsWhiteSpace accepts: the separators String.Split
      uses when it is given no separator at all. */
  predicate IsWhiteSpace(c: char) {
    var n := c as int;
    (0x09 <= n <= 0x0D) || n == 0x20 || n == 0x85 || n == 0xA0 || n == 0x1680
    || (0x2000 <= n <= 0x200A) || n == 0x2028 || n == 0x2029 || n == 0x202F
    || n == 0x205F || n == 0x3000
  }

  predicate NoSeparator(s: string, isSep: char -> bool) {
    forall i :: 0 <= i < |s| ==> !isSep(s[i])
  }

  /** The separator characters of s, in order. */
  function Separators(s: string, isSep: char -> bool): string {
    if |s| == 0 then ""
    else (if isSep(s[0]) then [s[0]] else "") + Separators(s[1..], isSep)
  }

  /** String.Split with a set of separator characters and no options: every
      separator ends one entry, so n separators give n + 1 entries, and runs
      of separators produce empty entries. */
  function Split(s: string, isSep: char -> bool): (r: seq<string>)
    ensures |r| == |Separators(s, isSep)| + 1
    ensures forall k :: 0 <= k < |r| ==> NoSeparator(r[k], isSep)
  {
    if |s| == 0 then [""]
    else
      var rest := Split(s[1..], isSep);
      if isSep(s[0]) then [""] + rest
      else [[s[0]] + rest[0]] + rest[1..]
  }

  /** Puts the k-th separator back between entries k and k + 1. */
  function Interleave(parts: seq<string>, seps: string): string
    requires |parts| == |seps| + 1
  {
    if |seps| == 0 then parts[0]
    else parts[0] + [seps[0]] + Interleave(parts[1..], seps[1..])
  }

  /** Splitting loses nothing: the entries with the separators put back
      between them are the original string. */
  lemma {:induction false} SplitRestores(s: string, isSep: char -> bool)
    ensures Interleave(Split(s, isSep), Separators(s, isSep)) == s
    decreases |s|
  {
    if |s| > 0 {
      SplitRestores(s[1..], isSep);
      var rest := Split(s[1..], isSep);
      var seps := Separators(s[1..], isSep);
      assert s == [s[0]] + s[1..];
      if !isSep(s[0]) {
        assert Separators(s, isSep) == seps;
        InterleaveCons(s[0], rest, seps);
      } else {
        assert Separators(s, isSep) == [s[0]] + seps;
        assert ([""] + rest)[1..] == rest;
      }
    }
  }

  /** Prepending a character to the first entry prepends it to the result. */
  lemma {:induction false} InterleaveCons(c: char, parts: seq<string>, seps: string)
    requires |parts| == |seps| + 1
    ensures Interleave([[c] + parts[0]] + parts[1..], seps) == [c] + Interleave(parts, seps)
  {
    var first := [c] + parts[0];
    if |seps| > 0 {
      assert ([first] + parts[1..])[1..] == parts[1..];
    }
  }

  /** Joins entries with a single separator character, as String.Join. */
  function Join(parts: seq<string>, sep: char): (r: string)
    requires |parts| > 0
  {
    if |parts| == 1 then parts[0] else parts[0] + [sep] + Join(parts[1..], sep)
  }

  /** Splitting a joined list gives the list back when no entry contains a
      separator and the joining character is one. */
  lemma {:induction false} SplitJoin(parts: seq<string>, sep: char, isSep: char -> bool)
    requires |parts| > 0
    requires isSep(sep)
    requires forall k :: 0 <= k < |parts| ==> NoSeparator(parts[k], isSep)
    ensures Split(Join(parts, sep), isSep) == parts
    decreases |parts|, |parts[0]|
  {
    if |parts| == 1 {
      SplitNoSeparator(parts[0], isSep);
    } else if |parts[0]| == 0 {
      SplitJoin(parts[1..], sep, isSep);
      var j := Join(parts, sep);
      assert j == [sep] + Join(parts[1..], sep);
      assert j[1..] == Join(parts[1..], sep);
      assert parts == [""] + parts[1..];
    } else {
      var tail := [parts[0][1..]] + parts[1..];
      assert tail[1..] == parts[1..];
      SplitJoin(tail, sep, isSep);
      var j := Join(parts, sep);
      assert j == [parts[0][0]] + Join(tail, sep);
      assert j[1..] == Join(tail, sep);
      assert [parts[0][0]] + parts[0][1..] == parts[0];
      assert parts == [parts[0]] + parts[1..];
    }
  }

  lemma {:induction false} SplitNoSeparator(s: string, isSep: char -> bool)
    requires NoSeparator(s, isSep)
    ensures Split(s, isSep) == [s]
    decreases |s|
  {
    if |s| > 0 {
      SplitNoSeparator(s[1..], isSep);
      assert [s[0]] + s[1..] == s;
    }
  }

  /** String.Split("\r\n"): the line break is matched left to right, so a
      lone '\r' or '\n' stays inside an entry. */
  function SplitLines(s: string): (r: seq<string>)
    ensures |r| > 0
    ensures |r[0]| > 0 ==> |s| > 0 && r[0][0] == s[0]
    ensures |r[0]| > 0 ==> !(|s| >= 2 && s[0] == '\r' && s[1] == '\n')
  {
    if |s| == 0 then [""]
    else if |s| >= 2 && s[0] == '\r' && s[1] == '\n' then [""] + SplitLines(s[2..])
    else
      var rest := SplitLines(s[1..]);
      [[s[0]] + rest[0]] + rest[1..]
  }

  predicate HasLineBreak(s: string) {
    exists i :: 0 <= i < |s| - 1 && s[i] == '\r' && s[i + 1] == '\n'
  }

  function JoinLines(parts: seq<string>): string
    requires |parts| > 0
  {
    if |parts| == 1 then parts[0] else parts[0] + "\r\n" + JoinLines(parts[1..])
  }

  /** The vocabulary file is exactly its entries joined by "\r\n" (a
      trailing line break yields a final empty entry). */
  lemma {:induction false} SplitLinesRestores(s: string)
    ensures JoinLines(SplitLines(s)) == s
    decreases |s|
  {
    if |s| == 0 {
    } else if |s| >= 2 && s[0] == '\r' && s[1] == '\n' {
      SplitLinesRestores(s[2..]);
      var rest := SplitLines(s[2..]);
      assert SplitLines(s) == [""] + rest;
      JoinLinesBreak(rest);
      assert s == "\r\n" + s[2..];
    } else {
      SplitLinesRestores(s[1..]);
      var rest := SplitLines(s[1..]);
      assert SplitLines(s) == [[s[0]] + rest[0]] + rest[1..];
      JoinLinesPrepend(s[0], rest);
      assert s == [s[0]] + s[1..];
    }
  }

  /** An empty first entry contributes just its line break. */
  lemma {:induction false} JoinLinesBreak(rest: seq<string>)
    requires |rest| > 0
    ensures JoinLines([""] + rest) == "\r\n" + JoinLines(rest)
  {
    assert ([""] + rest)[1..] == rest;
  }

  /** A character put in front of the first entry is in front of the join. */
  lemma {:induction false} JoinLinesPrepend(c: char, rest: seq<string>)
    requires |rest| > 0
    ensures JoinLines([[c] + rest[0]] + rest[1..]) == [c] + JoinLines(rest)
  {
    var parts := [[c] + rest[0]] + rest[1..];
    assert |parts| == |rest|;
    if |rest| == 1 {
      assert JoinLines(parts) == parts[0];
    } else {
      assert parts[1..] == rest[1..];
      var tail := JoinLines(rest[1..]);
      assert JoinLines(parts) == parts[0] + "\r\n" + tail;
      assert JoinLines(rest) == rest[0] + "\r\n" + tail;
      assert ([c] + rest[0]) + "\r\n" + tail == [c] + (rest[0] + "\r\n" + tail);
    }
  }

  /** No entry of the split contains a "\r\n". */
  lemma {:induction false} SplitLinesHaveNoBreak(s: string)
    ensures forall k :: 0 <= k < |SplitLines(s)| ==> !HasLineBreak(SplitLines(s)[k])
    decreases |s|
  {
    if |s| == 0 {
      assert SplitLines(s) == [""];
    } else if |s| >= 2 && s[0] == '\r' && s[1] == '\n' {
      SplitLinesHaveNoBreak(s[2..]);
      var rest := SplitLines(s[2..]);
      assert SplitLines(s) == [""] + rest;
      forall k | 0 <= k < |SplitLines(s)|
        ensures !HasLineBreak(SplitLines(s)[k])
      {
        if k > 0 {
          assert SplitLines(s)[k] == rest[k - 1];
        }
      }
    } else {
      SplitLinesHaveNoBreak(s[1..]);
      var rest := SplitLines(s[1..]);
      var first := [s[0]] + rest[0];
      assert SplitLines(s) == [first] + rest[1..];
      FirstHasNoBreak(s, rest[0]);
      forall k | 0 <= k < |SplitLines(s)|
        ensures !HasLineBreak(SplitLines(s)[k])
      {
        if k > 0 {
          assert SplitLines(s)[k] == rest[k];
        }
      }
    }
  }

  lemma {:induction false} FirstHasNoBreak(s: string, r0: string)
    requires |s| > 0 && !(|s| >= 2 && s[0] == '\r' && s[1] == '\n')
    requires r0 == SplitLines(s[1..])[0]
    requires !HasLineBreak(r0)
    ensures !HasLineBreak([s[0]] + r0)
  {
    var first := [s[0]] + r0;
    forall i | 0 <= i < |first| - 1
      ensures !(first[i] == '\r' && first[i + 1] == '\n')
    {
      if i == 0 {
        assert first[1] == r0[0] == s[1];
      } else {
        assert first[i] == r0[i - 1] && first[i + 1] == r0[i];
      }
    }
  }
}
