/** Which places the path in a drift report identifies. */
module ShownPaths {
  import opened Prelude
  import opened SchemaDrift

  /** What one step adds to the path. */
  function Piece(step: Step): (p: string)
    ensures p != [] && Delimiter(p[0])
  {
    if step.Elements? then ['[', '*', ']']
    else if step.name != [] && step.name[0] == '[' then step.name
    else ['.'] + step.name
  }

  /** Where a step may begin. */
  predicate Delimiter(c: char) {
    c == '.' || c == '['
  }

  /** No step begins at i or later. */
  predicate PlainFrom(s: string, i: nat) {
    forall j | i <= j < |s| :: !Delimiter(s[j])
  }

  function Pieces(at: Location): string {
    if at == [] then [] else Piece(at[0]) + Pieces(at[1..])
  }

  // ----- the shown path is the pieces in a row

  lemma {:induction false} PiecesOneMore(at: Location, step: Step)
    ensures Pieces(at + [step]) == Pieces(at) + Piece(step)
  {
    if at == [] {
      assert [] + [step] == [step];
      assert [step][1..] == [];
    } else {
      assert (at + [step])[1..] == at[1..] + [step];
      PiecesOneMore(at[1..], step);
      ConcatAssociates(Piece(at[0]), Pieces(at[1..]), Piece(step));
    }
  }

  lemma ShownOneMore(at: Location, step: Step)
    ensures ShownPath(at + [step]) == ShownPath(at) + Piece(step)
    ensures PathTo(at + [step]) != []
  {
    var child := if step.Member? then step.name else "[*]";
    assert (at + [step])[..|at|] == at;
    assert PathTo(at + [step]) == AppendPath(PathTo(at), child);
    assert "[*]" == ['[', '*', ']'];
    if step.Member? && !(child != [] && child[0] == '[') {
      ConcatAssociates(ShownPath(at), ".", child);
      assert "$." + child == "$" + ("." + child);
    }
  }

  /** What a report shows: $ for the document, $.name for a member, $[*] for the elements, and so on downwards. */
  lemma ShownSteps(at: Location, name: string)
    ensures ShownPath([]) == "$"
    ensures name == [] || name[0] != '[' ==> ShownPath(at + [Member(name)]) == ShownPath(at) + ("." + name)
    ensures name != [] && name[0] == '[' ==> ShownPath(at + [Member(name)]) == ShownPath(at) + name
    ensures ShownPath(at + [Elements]) == ShownPath(at) + "[*]"
  {
    ShownOneMore(at, Member(name));
    ShownOneMore(at, Elements);
  }

  lemma {:induction false} ShownIsPieces(at: Location)
    ensures ShownPath(at) == ['$'] + Pieces(at)
    decreases |at|
  {
    if at != [] {
      var front, last := at[..|at| - 1], at[|at| - 1];
      assert at == front + [last];
      ShownIsPieces(front);
      ShownOneMore(front, last);
      PiecesOneMore(front, last);
      ConcatAssociates(['$'], Pieces(front), Piece(last));
    }
  }

  lemma SameShownSamePieces(at: Location, other: Location)
    ensures ShownPath(at) == ShownPath(other) <==> Pieces(at) == Pieces(other)
  {
    ShownIsPieces(at);
    ShownIsPieces(other);
    assert (['$'] + Pieces(at))[1..] == Pieces(at) && (['$'] + Pieces(other))[1..] == Pieces(other);
  }

  // ----- names without delimiters

  predicate Clean(step: Step) {
    step.Member? ==> PlainFrom(step.name, 0)
  }

  predicate AllClean(at: Location) {
    forall i | 0 <= i < |at| :: Clean(at[i])
  }

  lemma CleanPiece(step: Step)
    requires Clean(step)
    ensures PlainFrom(Piece(step), 1)
  {
  }

  /** A string falls apart in one way only into a first piece without further delimiters and a rest that begins
      with one. */
  lemma FirstPieceIsDetermined(a: string, b: string, r: string, q: string)
    requires a != [] && b != [] && PlainFrom(a, 1) && PlainFrom(b, 1)
    requires (r != [] ==> Delimiter(r[0])) && (q != [] ==> Delimiter(q[0])) && a + r == b + q
    ensures a == b && r == q
  {
    NoShorter(a, b, r, q);
    NoShorter(b, a, q, r);
    SplitConcat(a, r);
    SplitConcat(b, q);
  }

  lemma NoShorter(a: string, b: string, r: string, q: string)
    requires a != [] && PlainFrom(b, 1) && (r != [] ==> Delimiter(r[0])) && a + r == b + q
    ensures |a| >= |b|
  {
    SecondBegins(a, r);
    assert |a + r| == |b + q| && forall j | 1 <= j < |b| :: (b + q)[j] == b[j];
  }

  lemma SecondBegins(a: string, r: string)
    ensures r != [] ==> (a + r)[|a|] == r[0]
  {
  }

  lemma CleanStepIsDetermined(s: Step, t: Step)
    requires Clean(s) && Clean(t) && Piece(s) == Piece(t)
    ensures s == t
  {
    if s.Member? && t.Member? {
      assert s.name == Piece(s)[1..] && t.name == Piece(t)[1..];
    }
  }

  lemma PiecesBegin(at: Location)
    ensures at != [] ==> Pieces(at) != [] && Pieces(at)[0] == Piece(at[0])[0]
  {
  }

  lemma {:induction false} CleanPiecesDetermine(at: Location, other: Location)
    requires AllClean(at) && AllClean(other) && Pieces(at) == Pieces(other)
    ensures at == other
    decreases |at|
  {
    PiecesBegin(at);
    PiecesBegin(other);
    if at != [] {
      var rest, others := at[1..], other[1..];
      CleanPiece(at[0]);
      CleanPiece(other[0]);
      PiecesBegin(rest);
      PiecesBegin(others);
      FirstPieceIsDetermined(Piece(at[0]), Piece(other[0]), Pieces(rest), Pieces(others));
      CleanStepIsDetermined(at[0], other[0]);
      CleanPiecesDetermine(rest, others);
      assert at == [at[0]] + rest && other == [other[0]] + others;
    }
  }

  /** Among documents whose member names hold neither a dot nor an opening bracket, a path identifies its place. */
  lemma CleanPathsIdentify(at: Location, other: Location)
    requires AllClean(at) && AllClean(other) && ShownPath(at) == ShownPath(other)
    ensures at == other
  {
    SameShownSamePieces(at, other);
    CleanPiecesDetermine(at, other);
  }

  // ----- among all documents

  /** No other place shows the same path. */
  ghost predicate Identified(at: Location) {
    forall other: Location :: ShownPath(other) == ShownPath(at) ==> other == at
  }

  /** Nothing in it could begin another step, and it is not the mark for elements. */
  predicate PlainName(name: string) {
    PlainFrom(name, 1) && (name != [] ==> name[0] != '.') && name != ['[', '*', ']']
  }

  predicate Bracketed(name: string) {
    name != [] && name[0] == '['
  }

  /** The document itself, a member of plain name, or under a nameless member one whose plain name begins with a
      bracket. */
  predicate Unambiguous(at: Location) {
    || at == []
    || (|at| == 1 && at[0].Member? && PlainName(at[0].name))
    || (|at| == 2 && at[0] == Member([]) && at[1].Member? && Bracketed(at[1].name) && PlainName(at[1].name))
  }

  lemma PiecesOfOne(x: Step)
    ensures Pieces([x]) == Piece(x)
  {
    assert [x][1..] == [] && Piece(x) + [] == Piece(x);
  }

  lemma PiecesOfTwo(x: Step, y: Step)
    ensures Pieces([x, y]) == Piece(x) + Piece(y)
  {
    PiecesOfOne(y);
    assert [x, y][1..] == [y];
  }

  lemma SinglePiece(step: Step, other: Location)
    requires PlainFrom(Piece(step), 1) && Pieces(other) == Piece(step)
    ensures |other| == 1 && Piece(other[0]) == Piece(step)
  {
    PiecesBegin(other);
    var rest := other[1..];
    PiecesBegin(rest);
    SecondBegins(Piece(other[0]), Pieces(rest));
  }

  lemma PlainMemberIsDetermined(name: string, other: Location)
    requires PlainName(name) && Pieces(other) == Piece(Member(name))
    ensures other == [Member(name)]
  {
    var p := Piece(Member(name));
    SinglePiece(Member(name), other);
    var step := other[0];
    if !Bracketed(name) {
      assert p[1..] == name;
      assert step.Member? ==> Piece(step)[1..] == step.name;
    }
  }

  lemma UnambiguousIsIdentified(at: Location, other: Location)
    requires Unambiguous(at) && Pieces(other) == Pieces(at)
    ensures other == at
  {
    PiecesBegin(other);
    if at == [] {
    } else if |at| == 1 {
      PiecesOfOne(at[0]);
      assert at == [at[0]];
      PlainMemberIsDetermined(at[0].name, other);
    } else {
      var name, rest := at[1].name, other[1..];
      PiecesOfTwo(at[0], at[1]);
      assert at == [at[0], at[1]];
      assert Pieces(at) == ['.'] + name;
      assert Pieces(at)[1] == '[';
      assert Piece(other[0]) == ['.'];
      assert Pieces(other)[1..] == Pieces(rest) && Pieces(at)[1..] == name;
      PlainMemberIsDetermined(name, rest);
      assert other == [other[0]] + rest;
    }
  }

  lemma {:induction false} PiecesConcat(a: Location, b: Location)
    ensures Pieces(a + b) == Pieces(a) + Pieces(b)
    decreases |a|
  {
    if a == [] {
      assert a + b == b;
    } else {
      assert (a + b)[1..] == a[1..] + b;
      PiecesConcat(a[1..], b);
      ConcatAssociates(Piece(a[0]), Pieces(a[1..]), Pieces(b));
    }
  }

  /** A place of member names alone that shows the given path. */
  function Spelled(s: string): (at: Location)
    requires s != [] && Delimiter(s[0])
    ensures 1 <= |at| <= 2
  {
    if s[0] == '[' then [Member(s)]
    else if Bracketed(s[1..]) then [Member([]), Member(s[1..])]
    else [Member(s[1..])]
  }

  lemma SpelledShows(s: string)
    requires s != [] && Delimiter(s[0])
    ensures Pieces(Spelled(s)) == s
  {
    assert s == [s[0]] + s[1..];
    if s[0] == '[' {
      PiecesOfOne(Member(s));
    } else {
      PiecesOfOne(Member(s[1..]));
      PiecesOfTwo(Member([]), Member(s[1..]));
    }
  }

  /** A last member that shows more than one step. */
  lemma SplitEnd(front: Location, last: Step) returns (other: Location)
    requires !PlainFrom(Piece(last), 1)
    ensures |other| > |front| + 1 && Pieces(other) == Pieces(front + [last])
  {
    var p := Piece(last);
    var i :| 1 <= i < |p| && Delimiter(p[i]);
    var x, y := Spelled(p[..i]), Spelled(p[i..]);
    assert p == p[..i] + p[i..];
    SpelledShows(p[..i]);
    SpelledShows(p[i..]);
    PiecesConcat(x, y);
    PiecesOneMore(front, last);
    other := front + (x + y);
    PiecesConcat(front, x + y);
  }

  lemma MarkedEnd(front: Location, last: Step) returns (other: Location)
    requires last == Member(['[', '*', ']'])
    ensures other != front + [last] && Pieces(other) == Pieces(front + [last])
  {
    other := front + [Elements];
    PiecesOneMore(front, Elements);
    PiecesOneMore(front, last);
    assert other[|front|] != (front + [last])[|front|];
  }

  /** Another place that shows the path of an ambiguous one. */
  lemma Collision(at: Location) returns (other: Location)
    requires !Unambiguous(at)
    ensures other != at && Pieces(other) == Pieces(at)
  {
    PiecesBegin(at);
    other := Spelled(Pieces(at));
    SpelledShows(Pieces(at));
    if other == at {
      var front, last := at[..|at| - 1], at[|at| - 1];
      assert at == front + [last];
      AmbiguousEnd(at, Pieces(at));
      if last.name == ['[', '*', ']'] {
        other := MarkedEnd(front, last);
      } else {
        AmbiguousName(last.name);
        other := SplitEnd(front, last);
      }
    }
  }

  lemma AmbiguousName(name: string)
    requires !PlainName(name) && name != ['[', '*', ']']
    ensures !PlainFrom(Piece(Member(name)), 1)
  {
    if !Bracketed(name) {
      assert forall j | 0 <= j < |name| :: name[j] == Piece(Member(name))[j + 1];
    }
  }

  lemma AmbiguousEnd(at: Location, s: string)
    requires s != [] && Delimiter(s[0]) && at == Spelled(s) && !Unambiguous(at)
    ensures at[|at| - 1].Member? && !PlainName(at[|at| - 1].name)
  {
  }

  /** Exactly the unambiguous places are the only ones to show their path. */
  lemma IdentifiedIff(at: Location)
    ensures Identified(at) <==> Unambiguous(at)
  {
    if Unambiguous(at) {
      forall other: Location | ShownPath(other) == ShownPath(at)
        ensures other == at
      {
        SameShownSamePieces(other, at);
        UnambiguousIsIdentified(at, other);
      }
    } else {
      var other := Collision(at);
      SameShownSamePieces(other, at);
    }
  }

  /** For one member: its name holds no dot, no bracket after its first character, and is not the mark for elements. */
  lemma MemberIdentifiedIff(name: string)
    ensures Identified([Member(name)])
       <==> '.' !in name && name != ['[', '*', ']'] && forall i | 1 <= i < |name| :: name[i] != '['
  {
    IdentifiedIff([Member(name)]);
    assert '.' in name ==> exists i | 0 <= i < |name| :: name[i] == '.';
  }
}
