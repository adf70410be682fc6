/**
 * The Python `str` operations the sentence handlers use, for sentences built
 * from gesture labels and `" "`: `strip()` (trimming spaces), `split(" ")`,
 * `" ".join(...)`, `upper()` (ASCII letters) and `s[:-1]`.
 */
module PyStr {

  /** `s.lstrip(" ")`. */
  function TrimLeft(s: string): (r: string)
    ensures |r| <= |s|
    ensures r == "" || r[0] != ' '
  {
    if |s| > 0 && s[0] == ' ' then TrimLeft(s[1..]) else s
  }

  /** `lstrip` removes a prefix made of spaces only. */
  lemma {:induction false} TrimLeftRemovesSpaces(s: string)
    ensures TrimLeft(s) == s[|s| - |TrimLeft(s)|..]
    ensures forall k :: 0 <= k < |s| - |TrimLeft(s)| ==> s[k] == ' '
  {
    if |s| > 0 && s[0] == ' ' {
      TrimLeftRemovesSpaces(s[1..]);
    }
  }

  /** `s.rstrip(" ")`. */
  function TrimRight(s: string): (r: string)
    ensures |r| <= |s|
    ensures r == "" || r[|r| - 1] != ' '
  {
    if |s| > 0 && s[|s| - 1] == ' ' then TrimRight(s[..|s| - 1]) else s
  }

  /** `rstrip` removes a suffix made of spaces only. */
  lemma {:induction false} TrimRightRemovesSpaces(s: string)
    ensures TrimRight(s) == s[..|TrimRight(s)|]
    ensures forall k :: |TrimRight(s)| <= k < |s| ==> s[k] == ' '
  {
    if |s| > 0 && s[|s| - 1] == ' ' {
      TrimRightRemovesSpaces(s[..|s| - 1]);
    }
  }

  /** `s.strip()` on a string whose only whitespace is `' '`. */
  function Strip(s: string): (r: string)
    ensures r == "" || (r[0] != ' ' && r[|r| - 1] != ' ')
  {
    TrimRightRemovesSpaces(TrimLeft(s));
    TrimRight(TrimLeft(s))
  }

  /**
   * `strip()` keeps one contiguous run of `s`, starting where left-trimming
   * stopped, and everything of `s` before or after that run is a space.
   */
  lemma StripRemovesSpaces(s: string)
    ensures var l := |s| - |TrimLeft(s)|; var r := Strip(s);
      && l + |r| <= |s|
      && r == s[l..l + |r|]
      && (forall k :: 0 <= k < l ==> s[k] == ' ')
      && (forall k :: l + |r| <= k < |s| ==> s[k] == ' ')
  {
    var u := TrimLeft(s);
    var l := |s| - |u|;
    TrimLeftRemovesSpaces(s);
    TrimRightRemovesSpaces(u);
    var r := TrimRight(u);
    assert r == s[l..][..|r|] == s[l..l + |r|];
    forall k | l + |r| <= k < |s|
      ensures s[k] == ' '
    {
      assert s[k] == u[k - l];
    }
  }

  /** A string that neither starts nor ends with a space is its own `strip()`. */
  lemma StripKeepsTrimmed(s: string)
    requires s == "" || (s[0] != ' ' && s[|s| - 1] != ' ')
    ensures Strip(s) == s
  {
    assert TrimLeft(s) == s;
    assert TrimRight(s) == s;
  }

  /** Appending to a string: left-trimming stops inside it unless it is all spaces. */
  lemma {:induction false} TrimLeftAppend(s: string, t: string)
    ensures TrimLeft(s + t) == if TrimLeft(s) == "" then TrimLeft(t) else TrimLeft(s) + t
  {
    if |s| > 0 && s[0] == ' ' {
      assert (s + t)[1..] == s[1..] + t;
      TrimLeftAppend(s[1..], t);
    } else if |s| == 0 {
      assert s + t == t;
    }
  }

  /** A trailing space never changes `strip()`. */
  lemma StripTrailingSpace(s: string)
    ensures Strip(s + " ") == Strip(s)
  {
    TrimLeftAppend(s, " ");
    var u := TrimLeft(s);
    if u != "" {
      assert (u + " ")[..|u|] == u;
    }
  }

  /** The index of the first `' '` in `s`, or `|s|` when there is none. */
  function FirstSpace(s: string): (i: nat)
    ensures i <= |s|
    ensures i < |s| ==> s[i] == ' '
  {
    if |s| == 0 || s[0] == ' ' then 0 else 1 + FirstSpace(s[1..])
  }

  /** No space comes before `FirstSpace(s)`. */
  lemma {:induction false} FirstSpaceIsFirst(s: string)
    ensures forall k :: 0 <= k < FirstSpace(s) ==> s[k] != ' '
  {
    if |s| > 0 && s[0] != ' ' {
      FirstSpaceIsFirst(s[1..]);
    }
  }

  /** `s.split(" ")`: the pieces between single spaces, empty ones included. */
  function Split(s: string): (r: seq<string>)
    ensures |r| >= 1
    decreases |s|
  {
    var i := FirstSpace(s);
    if i == |s| then [s] else [s[..i]] + Split(s[i + 1..])
  }

  /** No piece of `s.split(" ")` contains a space. */
  lemma {:induction false} SplitPiecesSpaceFree(s: string)
    ensures forall k :: 0 <= k < |Split(s)| ==> ' ' !in Split(s)[k]
    decreases |s|
  {
    var i := FirstSpace(s);
    FirstSpaceIsFirst(s);
    if i < |s| {
      SplitAtFirstSpace(s);
      SplitPiecesSpaceFree(s[i + 1..]);
      var rs := Split(s[i + 1..]);
      forall k | 0 <= k < |Split(s)|
        ensures ' ' !in Split(s)[k]
      {
        if k > 0 {
          assert Split(s)[k] == rs[k - 1];
        }
      }
    } else {
      assert Split(s) == [s];
    }
  }

  /** `" ".join(xs)`. */
  function Join(xs: seq<string>): (r: string)
    ensures |xs| >= 1 ==> xs[0] <= r
  {
    if |xs| == 0 then "" else if |xs| == 1 then xs[0] else xs[0] + " " + Join(xs[1..])
  }

  /** Joining a piece in front of a non-empty list puts one space after it. */
  lemma JoinCons(x: string, parts: seq<string>)
    requires |parts| >= 1
    ensures Join([x] + parts) == x + " " + Join(parts)
  {
    assert ([x] + parts)[1..] == parts;
  }

  /** A string with a space is its first piece, that space, and the rest; splitting peels off the first piece. */
  lemma SplitAtFirstSpace(s: string)
    requires FirstSpace(s) < |s|
    ensures var i := FirstSpace(s);
      && s == s[..i] + " " + s[i + 1..]
      && Split(s) == [s[..i]] + Split(s[i + 1..])
  {
    SpaceSeparates(s, FirstSpace(s));
  }

  /** A string is the part before a space, the space, and the part after it. */
  lemma SpaceSeparates(s: string, i: nat)
    requires i < |s| && s[i] == ' '
    ensures s == s[..i] + " " + s[i + 1..]
  {
    assert s[i..] == " " + s[i + 1..];
  }

  /**
   * The last piece of a join is a suffix of it: the whole join when there is
   * one piece, and preceded by the separating space otherwise.
   */
  lemma {:induction false} JoinLastPiece(xs: seq<string>)
    requires |xs| >= 1
    ensures var j := Join(xs); var t := xs[|xs| - 1];
      && |t| <= |j|
      && j[|j| - |t|..] == t
      && (|xs| == 1 ==> t == j)
      && (|xs| >= 2 ==> |t| < |j| && j[|j| - |t| - 1] == ' ')
    decreases |xs|
  {
    if |xs| >= 2 {
      var rest := Join(xs[1..]);
      var j := xs[0] + " " + rest;
      assert Join(xs) == j;
      JoinLastPiece(xs[1..]);
      assert j[|xs[0]| + 1..] == rest;
      TailOfTail(j, |xs[0]| + 1, xs[|xs| - 1]);
    }
  }

  /**
   * The last piece of `s.split(" ")` is the tail of `s` after its last space:
   * a suffix of `s` that is either all of `s` or preceded by a space.
   */
  lemma SplitLastPiece(s: string)
    ensures var ws := Split(s); var t := ws[|ws| - 1];
      && |t| <= |s|
      && s[|s| - |t|..] == t
      && (|t| == |s| || s[|s| - |t| - 1] == ' ')
  {
    JoinSplit(s);
    JoinLastPiece(Split(s));
  }

  /** A suffix of `s[j..]` is a suffix of `s`, preceded by `s[j - 1]` when it is all of `s[j..]`. */
  lemma TailOfTail(s: string, j: nat, t: string)
    requires 0 < j <= |s|
    requires |t| <= |s| - j && s[j..][|s| - j - |t|..] == t
    requires |t| == |s| - j || s[j..][|s| - j - |t| - 1] == ' '
    requires s[j - 1] == ' '
    ensures |t| <= |s| && s[|s| - |t|..] == t
    ensures |t| == |s| || s[|s| - |t| - 1] == ' '
  {
    assert s[j..][|s| - j - |t|..] == s[|s| - |t|..];
    if |t| < |s| - j {
      assert s[j..][|s| - j - |t| - 1] == s[|s| - |t| - 1];
    }
  }

  /** Splitting and re-joining gives back the string. */
  lemma {:induction false} JoinSplit(s: string)
    ensures Join(Split(s)) == s
    decreases |s|
  {
    var i := FirstSpace(s);
    if i < |s| {
      var rest := s[i + 1..];
      SplitAtFirstSpace(s);
      JoinCons(s[..i], Split(rest));
      JoinSplit(rest);
    } else {
      assert Split(s) == [s];
    }
  }

  /** The first space of `x + " " + rest` is the one after a space-free `x`. */
  lemma FirstSpaceAfterWord(x: string, rest: string)
    requires ' ' !in x
    ensures FirstSpace(x + " " + rest) == |x|
  {
    var s := x + " " + rest;
    var i := FirstSpace(s);
    FirstSpaceIsFirst(s);
    assert s[|x|] == ' ';
    assert forall k :: 0 <= k < |x| ==> s[k] == x[k];
  }

  /** Joining space-free pieces and splitting again gives back the pieces. */
  lemma {:induction false} SplitJoin(xs: seq<string>)
    requires |xs| >= 1
    requires forall k :: 0 <= k < |xs| ==> ' ' !in xs[k]
    ensures Split(Join(xs)) == xs
    decreases |xs|
  {
    if |xs| == 1 {
      assert FirstSpace(xs[0]) == |xs[0]|;
    } else {
      var s := Join(xs);
      var rest := Join(xs[1..]);
      assert s == xs[0] + " " + rest;
      FirstSpaceAfterWord(xs[0], rest);
      assert s[..|xs[0]|] == xs[0];
      assert s[|xs[0]| + 1..] == rest;
      SplitJoin(xs[1..]);
      assert xs == [xs[0]] + xs[1..];
    }
  }

  /** A join whose first piece is non-empty starts with that piece's first character. */
  lemma JoinFirstChar(xs: seq<string>)
    requires |xs| >= 1 && xs[0] != ""
    ensures |Join(xs)| > 0 && Join(xs)[0] == xs[0][0]
  {
  }

  /** A join whose last piece is non-empty ends with that piece's last character. */
  lemma {:induction false} JoinLastChar(xs: seq<string>)
    requires |xs| >= 1 && xs[|xs| - 1] != ""
    ensures var j := Join(xs); var w := xs[|xs| - 1];
      |j| > 0 && j[|j| - 1] == w[|w| - 1]
    decreases |xs|
  {
    if |xs| > 1 {
      JoinLastChar(xs[1..]);
    }
  }

  /** The first piece of a stripped, non-empty sentence that contains a space is non-empty. */
  lemma SplitStrippedHead(s: string)
    requires s != "" && s[0] != ' '
    ensures Split(s)[0] != "" && Split(s)[0][0] == s[0]
  {
    var i := FirstSpace(s);
    assert i > 0;
  }

  /** `s[:-1]`: the last character removed, `""` left alone. */
  function DropLast(s: string): (r: string)
    ensures s == "" ==> r == ""
    ensures s != "" ==> |r| == |s| - 1 && r == s[..|r|]
  {
    if |s| == 0 then s else s[..|s| - 1]
  }

  /** `c.upper()` on ASCII: only `a`-`z` change. */
  function UpperChar(c: char): (u: char)
    ensures 'a' <= c <= 'z' ==> u as int == c as int - 32
    ensures !('a' <= c <= 'z') ==> u == c
  {
    if 'a' <= c <= 'z' then (c as int - 32) as char else c
  }

  /** `s.upper()`, character by character. */
  function Upper(s: string): (r: string)
    ensures |r| == |s|
    ensures forall k :: 0 <= k < |s| ==> r[k] == UpperChar(s[k])
  {
    if |s| == 0 then "" else [UpperChar(s[0])] + Upper(s[1..])
  }
}
