/** Python's `str.join`, `str.split(sep)` and `str.lower` over `seq<char>`, with the
    facts about them that the bot's argument handling, note rendering and summarizer rely on. */
module Text {

  /** `sep.join(parts)`: the parts with `sep` between neighbours; the empty list joins to "".
      The first part starts the result, followed by the separator when more parts come. */
  function Join(parts: seq<string>, sep: string): (r: string)
    ensures |parts| == 0 ==> r == ""
    ensures |parts| >= 1 ==> parts[0] <= r
    ensures |parts| >= 2 ==> parts[0] + sep <= r
    decreases |parts|
  {
    if |parts| == 0 then ""
    else if |parts| == 1 then parts[0]
    else parts[0] + sep + Join(parts[1..], sep)
  }

  /** `pat in s` for strings: `pat` occurs somewhere in `s`. */
  predicate Contains(s: string, pat: string)
    decreases |s|
  {
    pat <= s || (s != [] && Contains(s[1..], pat))
  }

  /** `s.split(sep)`: scan left to right, cutting at each leftmost occurrence of `sep`.
      The result always has at least one piece; "" splits to [""]. A string without the
      separator is its own single piece, and one with it is cut into two or more. */
  function Split(s: string, sep: string): (pieces: seq<string>)
    requires sep != []
    ensures |pieces| >= 1
    ensures !Contains(s, sep) ==> pieces == [s]
    ensures Contains(s, sep) ==> |pieces| >= 2
    decreases |s|
  {
    if s == [] then [""]
    else if sep <= s then [""] + Split(s[|sep|..], sep)
    else
      var rest := Split(s[1..], sep);
      assert !Contains(s, sep) ==> !Contains(s[1..], sep) && rest == [s[1..]];
      assert [s[0]] + s[1..] == s;
      [[s[0]] + rest[0]] + rest[1..]
  }

  /** A separator that one piece and the separator after it can never overlap into a false
      match: a single character, or two different characters (". " and "\n" both are). */
  predicate NonOverlapping(sep: string)
  {
    |sep| == 1 || (|sep| == 2 && sep[0] != sep[1])
  }

  /** ASCII lower-casing, the part of `str.lower` that can turn a word into one of the
      bot's (all-ASCII) command names. */
  function LowerChar(c: char): char
  {
    if 'A' <= c <= 'Z' then (c as int - 'A' as int + 'a' as int) as char else c
  }

  /** `s.lower()` on ASCII: no upper-case letter is left, every other character is kept, and
      each upper-case letter becomes its lower-case partner, 32 code points later. */
  function Lower(s: string): (r: string)
    ensures |r| == |s|
    ensures forall i :: 0 <= i < |r| ==> !('A' <= r[i] <= 'Z')
    ensures forall i :: 0 <= i < |s| && !('A' <= s[i] <= 'Z') ==> r[i] == s[i]
    ensures forall i :: 0 <= i < |s| && 'A' <= s[i] <= 'Z' ==> r[i] as int == s[i] as int + 32
  {
    seq(|s|, i requires 0 <= i < |s| => LowerChar(s[i]))
  }

  /** A string without upper-case ASCII letters lower-cases to itself. */
  lemma LowerOfLowercase(s: string)
    requires forall i :: 0 <= i < |s| ==> !('A' <= s[i] <= 'Z')
    ensures Lower(s) == s
  {
  }

  // ---------------------------------------------------------------------------
  // Containment

  /** A string that occurs in `s` has its first character in `s`. */
  lemma {:induction false} ContainsFirstChar(s: string, pat: string)
    requires pat != [] && Contains(s, pat)
    ensures pat[0] in s
  {
    if pat <= s {
      assert s[0] == pat[0];
    } else {
      ContainsFirstChar(s[1..], pat);
      assert s == [s[0]] + s[1..];
    }
  }

  /** A one-character pattern occurs exactly when that character does. */
  lemma {:induction false} ContainsChar(s: string, c: char)
    ensures Contains(s, [c]) <==> c in s
  {
    if s != [] {
      ContainsChar(s[1..], c);
      assert s == [s[0]] + s[1..];
    }
  }

  // ---------------------------------------------------------------------------
  // Join after Split

  /** Joining a head before at least one more part puts the separator after the head. */
  lemma JoinCons(head: string, rest: seq<string>, sep: string)
    requires |rest| >= 1
    ensures Join([head] + rest, sep) == head + sep + Join(rest, sep)
  {
    assert ([head] + rest)[1..] == rest;
  }

  lemma {:induction false} JoinPrepend(c: char, t: seq<string>, sep: string)
    requires |t| >= 1
    ensures Join([[c] + t[0]] + t[1..], sep) == [c] + Join(t, sep)
  {
    if |t| > 1 {
      JoinCons([c] + t[0], t[1..], sep);
      JoinCons(t[0], t[1..], sep);
      assert [t[0]] + t[1..] == t;
    }
  }

  /** Joining the pieces of a split with the same separator gives back the string. */
  lemma {:induction false} JoinSplit(s: string, sep: string)
    requires sep != []
    ensures Join(Split(s, sep), sep) == s
    decreases |s|
  {
    if s == [] {
    } else if sep <= s {
      var tail := s[|sep|..];
      var rest := Split(tail, sep);
      assert Split(s, sep) == [""] + rest;
      JoinSplit(tail, sep);
      JoinCons("", rest, sep);
      assert s == sep + tail;
    } else {
      var rest := Split(s[1..], sep);
      assert Split(s, sep) == [[s[0]] + rest[0]] + rest[1..];
      JoinSplit(s[1..], sep);
      JoinPrepend(s[0], rest, sep);
      assert s == [s[0]] + s[1..];
    }
  }

  /** The first piece of a split is a prefix of the string. */
  lemma {:induction false} FirstPiecePrefix(s: string, sep: string)
    requires sep != []
    ensures Split(s, sep)[0] <= s
    decreases |s|
  {
    if s != [] && !(sep <= s) {
      FirstPiecePrefix(s[1..], sep);
      var t0 := Split(s[1..], sep)[0];
      assert s[..1 + |t0|] == [s[0]] + s[1..][..|t0|];
    }
  }

  /** No piece of a split contains the separator. */
  lemma {:induction false} SplitPiecesFree(s: string, sep: string)
    requires sep != []
    ensures forall p :: p in Split(s, sep) ==> !Contains(p, sep)
    decreases |s|
  {
    if s == [] {
    } else if sep <= s {
      SplitPiecesFree(s[|sep|..], sep);
    } else {
      var rest := Split(s[1..], sep);
      SplitPiecesFree(s[1..], sep);
      FirstPiecePrefix(s[1..], sep);
      var p0 := [s[0]] + rest[0];
      assert p0 <= s by {
        assert s[..|p0|] == [s[0]] + s[1..][..|rest[0]|];
      }
      assert !(sep <= p0);
      assert p0[1..] == rest[0];
      assert !Contains(rest[0], sep);
      assert !Contains(p0, sep);
      assert Split(s, sep) == [p0] + rest[1..];
      forall p | p in Split(s, sep)
        ensures !Contains(p, sep)
      {
        if p != p0 {
          assert p in rest[1..];
          assert p in rest;
        }
      }
    }
  }

  // ---------------------------------------------------------------------------
  // Split after Join

  /** A nonempty piece without the separator, followed by the separator, does not start with it. */
  lemma NoSeparatorAtStart(p: string, rest: string, sep: string)
    requires NonOverlapping(sep) && p != [] && !Contains(p, sep)
    ensures !(sep <= p + sep + rest)
  {
    var s := p + sep + rest;
    if |sep| == 1 {
      ContainsChar(p, sep[0]);
      assert s[0] == p[0];
      assert [sep[0]] == sep;
    } else if |p| == 1 {
      assert s[1] == sep[0];
    } else {
      assert s[..2] == p[..2];
    }
  }

  /** A piece without the separator, followed by the separator, is cut off as the first piece. */
  lemma {:induction false} SplitPieceThenRest(p: string, rest: string, sep: string)
    requires NonOverlapping(sep) && !Contains(p, sep)
    ensures Split(p + sep + rest, sep) == [p] + Split(rest, sep)
    decreases |p|
  {
    var s := p + sep + rest;
    if p == [] {
      assert s == sep + rest;
      assert s[|sep|..] == rest;
    } else {
      NoSeparatorAtStart(p, rest, sep);
      assert !Contains(p[1..], sep);
      assert s[1..] == p[1..] + sep + rest;
      var after := Split(s[1..], sep);
      assert Split(s, sep) == [[s[0]] + after[0]] + after[1..];
      SplitPieceThenRest(p[1..], rest, sep);
      assert after == [p[1..]] + Split(rest, sep);
      assert [s[0]] + p[1..] == p;
    }
  }

  /** Splitting a join gives back the parts, when no part contains a non-overlapping separator. */
  lemma {:induction false} SplitJoin(parts: seq<string>, sep: string)
    requires NonOverlapping(sep) && |parts| >= 1
    requires forall i :: 0 <= i < |parts| ==> !Contains(parts[i], sep)
    ensures Split(Join(parts, sep), sep) == parts
    decreases |parts|
  {
    if |parts| > 1 {
      SplitJoin(parts[1..], sep);
      SplitPieceThenRest(parts[0], Join(parts[1..], sep), sep);
      assert parts == [parts[0]] + parts[1..];
    }
  }

  /** Joining a leading run of the parts gives a prefix of joining them all. */
  lemma {:induction false} JoinPrefix(parts: seq<string>, k: nat, sep: string)
    requires 1 <= k <= |parts|
    ensures Join(parts[..k], sep) <= Join(parts, sep)
    decreases k
  {
    if k == |parts| {
      assert parts[..k] == parts;
    } else if k > 1 {
      JoinPrefix(parts[1..], k - 1, sep);
      assert parts[..k][1..] == parts[1..][..k - 1];
      var a := Join(parts[1..][..k - 1], sep);
      var b := Join(parts[1..], sep);
      assert a <= b;
      var head := parts[0] + sep;
      assert (head + a) == (head + b)[..|head + a|];
    }
  }

  /** Lines without a line break, joined with "\n", split back into the same lines. */
  lemma SplitJoinLines(lines: seq<string>)
    requires |lines| >= 1
    ensures (forall i :: 0 <= i < |lines| ==> '\n' !in lines[i]) ==> Split(Join(lines, "\n"), "\n") == lines
  {
    if forall i :: 0 <= i < |lines| ==> '\n' !in lines[i] {
      forall i | 0 <= i < |lines|
        ensures !Contains(lines[i], "\n")
      {
        ContainsChar(lines[i], '\n');
      }
      SplitJoin(lines, "\n");
    }
  }
}
