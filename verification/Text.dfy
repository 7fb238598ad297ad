/** Splitting on a delimiter and trimming blanks. */
module Text {

  function Join(ps: seq<string>, d: char): string {
    if ps == [] then []
    else if |ps| == 1 then ps[0]
    else ps[0] + [d] + Join(ps[1..], d)
  }

  /** The first index of `d`, or the length. */
  function Find(s: string, d: char): (k: nat)
    ensures k <= |s| && d !in s[..k] && (k < |s| ==> s[k] == d)
  {
    if s == [] || s[0] == d then 0
    else
      assert s[1..][..Find(s[1..], d)] == s[..1 + Find(s[1..], d)][1..];
      1 + Find(s[1..], d)
  }

  /** The pieces read up to each delimiter, or up to the end if anything is left there. */
  function Pieces(s: string, d: char): seq<string> {
    if s == [] then []
    else
      var k := Find(s, d);
      [s[..k]] + if k < |s| then Pieces(s[k + 1..], d) else []
  }

  function Split(s: string, d: char): seq<string> {
    if s == [] then [s] else Pieces(s, d)
  }

  ghost predicate FreeOf(ps: seq<string>, d: char) {
    forall i | 0 <= i < |ps| :: d !in ps[i]
  }

  predicate EndsWith(s: string, d: char) {
    s != [] && s[|s| - 1] == d
  }

  /** The loop of the program: each round reads one piece and its delimiter. */
  method SplitLoop(s: string, d: char) returns (elems: seq<string>)
    ensures elems == Split(s, d)
  {
    elems := [];
    var pos := 0;
    while pos < |s|
      invariant pos <= |s| && elems + Pieces(s[pos..], d) == Pieces(s, d)
    {
      var k := Find(s[pos..], d);
      elems := elems + [s[pos..][..k]];
      assert k < |s[pos..]| ==> s[pos..][k + 1..] == s[pos + k + 1..];
      pos := if pos + k < |s| then pos + k + 1 else |s|;
    }
    if elems == [] {
      elems := [s];
    }
  }

  // ----- splitting and joining are inverse up to one trailing delimiter

  lemma JoinOne(p: string, d: char)
    ensures Join([p], d) == p
  {
  }

  lemma JoinCons(p: string, ps: seq<string>, d: char)
    requires ps != []
    ensures Join([p] + ps, d) == p + [d] + Join(ps, d)
  {
    assert ([p] + ps)[1..] == ps;
  }

  /** The trailing delimiter of a text, if any. */
  function Ending(s: string, d: char): string {
    if EndsWith(s, d) then [d] else []
  }

  lemma {:induction false} PiecesFree(s: string, d: char)
    ensures FreeOf(Pieces(s, d), d)
    decreases |s|
  {
    if s != [] && Find(s, d) < |s| {
      PiecesFree(s[Find(s, d) + 1..], d);
    }
  }

  lemma Cut(s: string, d: char, k: nat)
    requires k < |s| && s[k] == d
    ensures s == s[..k] + [d] + s[k + 1..] && Ending(s, d) == if s[k + 1..] == [] then [d] else Ending(s[k + 1..], d)
  {
  }

  lemma PiecesUnfold(s: string, d: char)
    requires s != []
    ensures var k := Find(s, d);
            if k == |s| then Pieces(s, d) == [s] && Ending(s, d) == []
            else if s[k + 1..] == [] then Pieces(s, d) == [s[..k]]
            else Pieces(s, d) == [s[..k]] + Pieces(s[k + 1..], d)
  {
    assert s[..|s|] == s;
  }

  lemma {:induction false} PiecesJoin(s: string, d: char)
    requires s != []
    ensures Pieces(s, d) != [] && Join(Pieces(s, d), d) + Ending(s, d) == s
    decreases |s|
  {
    hide Find, Join, Pieces, Ending;
    PiecesUnfold(s, d);
    var k := Find(s, d);
    if k == |s| {
      JoinOne(s, d);
    } else {
      var p, rest := s[..k], s[k + 1..];
      Cut(s, d, k);
      if rest == [] {
        JoinOne(p, d);
      } else {
        PiecesJoin(rest, d);
        JoinCons(p, Pieces(rest, d), d);
        assert p + [d] + Join(Pieces(rest, d), d) + Ending(rest, d) == p + [d] + (Join(Pieces(rest, d), d) + Ending(rest, d));
      }
    }
  }

  /** The pieces have no delimiter and join to the text, but for one trailing delimiter. */
  lemma SplitJoin(s: string, d: char)
    ensures Split(s, d) != [] && FreeOf(Split(s, d), d)
    ensures Join(Split(s, d), d) + Ending(s, d) == s
  {
    if s != [] {
      PiecesFree(s, d);
      PiecesJoin(s, d);
    }
  }

  lemma FindAfter(p: string, d: char, rest: string)
    requires d !in p
    ensures Find(p, d) == |p| && Find(p + [d] + rest, d) == |p|
  {
    assert (p + [d] + rest)[|p|] == d;
  }

  lemma PiecesAfter(p: string, d: char, rest: string)
    requires d !in p
    ensures Split(p, d) == [p] && Split(p + [d] + rest, d) == [p] + Pieces(rest, d)
  {
    FindAfter(p, d, rest);
    var s := p + [d] + rest;
    assert s[..|p|] == p && s[|p| + 1..] == rest && p[..|p|] == p;
  }

  /** The pieces that survive: an empty last one after others is dropped. */
  function Kept(ps: seq<string>): seq<string> {
    if |ps| > 1 && ps[|ps| - 1] == [] then ps[..|ps| - 1] else ps
  }

  lemma KeptCons(p: string, ps: seq<string>)
    requires ps != [] && ps != [[]]
    ensures Kept([p] + ps) == [p] + Kept(ps)
  {
  }

  /** Joined pieces split into the same pieces, but for an empty last one after others. */
  lemma {:induction false} JoinSplit(ps: seq<string>, d: char)
    requires ps != [] && FreeOf(ps, d)
    ensures Split(Join(ps, d), d) == Kept(ps)
    decreases |ps|
  {
    var p, tail := ps[0], ps[1..];
    assert ps == [p] + tail;
    if tail == [] {
      PiecesAfter(p, d, []);
    } else {
      var rest := Join(tail, d);
      JoinCons(p, tail, d);
      PiecesAfter(p, d, rest);
      if rest == [] {
        JoinEmpty(tail, d);
      } else {
        TailFree(ps, d);
        JoinSplit(tail, d);
        hide Join, Kept;
        KeptCons(p, tail) by {
          JoinOne([], d);
        }
      }
    }
  }

  lemma TailFree(ps: seq<string>, d: char)
    requires ps != [] && FreeOf(ps, d)
    ensures FreeOf(ps[1..], d)
  {
  }

  lemma JoinEmpty(ps: seq<string>, d: char)
    requires ps != [] && Join(ps, d) == []
    ensures ps == [[]]
  {
  }

  // ----- trimming

  /** `isspace` in the C locale. */
  predicate IsSpace(c: char) {
    c == ' ' || '\t' <= c <= '\r'
  }

  /** Space, tab, newline, vertical tab, form feed and carriage return, and no others. */
  lemma SpacesExactly(c: char)
    ensures IsSpace(c) <==> c in {' ', '\t', '\n', '\U{0B}', '\U{0C}', '\r'}
  {
    if '\t' <= c <= '\r' {
      assert 9 <= c as int <= 13;
      assert c == (c as int) as char;
    }
  }

  /** Made of the six blanks. */
  predicate Blank(s: string) {
    forall i | 0 <= i < |s| :: s[i] in {' ', '\t', '\n', '\U{0B}', '\U{0C}', '\r'}
  }

  /** Neither begins nor ends with one of the six blanks. */
  predicate Trimmed(s: string) {
    s == [] || (s[0] !in {' ', '\t', '\n', '\U{0B}', '\U{0C}', '\r'} && s[|s| - 1] !in {' ', '\t', '\n', '\U{0B}', '\U{0C}', '\r'})
  }

  function LTrim(s: string): string {
    if s != [] && IsSpace(s[0]) then LTrim(s[1..]) else s
  }

  function RTrim(s: string): string {
    if s != [] && IsSpace(s[|s| - 1]) then RTrim(s[..|s| - 1]) else s
  }

  function Trim(s: string): string {
    RTrim(LTrim(s))
  }

  lemma {:induction false} LTrimBlanks(a: string, s: string)
    requires Blank(a)
    ensures LTrim(a + s) == LTrim(s)
  {
    if a == [] {
      assert a + s == s;
    } else {
      SpacesExactly(a[0]);
      assert (a + s)[1..] == a[1..] + s;
      LTrimBlanks(a[1..], s);
    }
  }

  lemma {:induction false} RTrimBlanks(s: string, b: string)
    requires Blank(b)
    ensures RTrim(s + b) == RTrim(s)
  {
    if b == [] {
      assert s + b == s;
    } else {
      SpacesExactly(b[|b| - 1]);
      assert (s + b)[..|s + b| - 1] == s + b[..|b| - 1];
      RTrimBlanks(s, b[..|b| - 1]);
    }
  }

  /** Trimming a trimmed text between blanks gives back the text. */
  lemma TrimBetween(a: string, s: string, b: string)
    requires Blank(a) && Blank(b) && Trimmed(s)
    ensures Trim(a + s + b) == s
  {
    assert a + s + b == a + (s + b);
    LTrimBlanks(a, s + b);
    if s == [] {
      LTrimBlanks(b, []);
      assert s + b == b + [];
    } else {
      SpacesExactly(s[0]);
      SpacesExactly(s[|s| - 1]);
      assert LTrim(s + b) == s + b;
      RTrimBlanks(s, b);
    }
  }

  lemma {:induction false} LTrimCore(s: string) returns (a: string)
    ensures Blank(a) && s == a + LTrim(s) && (LTrim(s) == [] || !IsSpace(LTrim(s)[0]))
  {
    a := [];
    if s != [] && IsSpace(s[0]) {
      SpacesExactly(s[0]);
      var a' := LTrimCore(s[1..]);
      a := [s[0]] + a';
      assert s == [s[0]] + s[1..];
    }
  }

  lemma {:induction false} RTrimCore(s: string) returns (b: string)
    ensures Blank(b) && s == RTrim(s) + b && (RTrim(s) == [] || !IsSpace(RTrim(s)[|RTrim(s)| - 1]))
  {
    b := [];
    if s != [] && IsSpace(s[|s| - 1]) {
      SpacesExactly(s[|s| - 1]);
      var b' := RTrimCore(s[..|s| - 1]);
      b := b' + [s[|s| - 1]];
      assert s == s[..|s| - 1] + [s[|s| - 1]];
    }
  }

  /** Every text is its trimmed form between blanks. */
  lemma TrimLeavesCore(s: string) returns (a: string, b: string)
    ensures Blank(a) && Blank(b) && Trimmed(Trim(s)) && s == a + Trim(s) + b
  {
    a := LTrimCore(s);
    b := RTrimCore(LTrim(s));
    if Trim(s) != [] {
      assert Trim(s)[0] == LTrim(s)[0];
      SpacesExactly(Trim(s)[0]);
      SpacesExactly(Trim(s)[|Trim(s)| - 1]);
    }
    assert s == a + (Trim(s) + b);
  }
}
