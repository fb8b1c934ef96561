/** `extractParts`: a pattern such as `/users/:id` is split on `/`, and each
    piece becomes a parameter part (a piece that starts with `:`, whose name is
    the piece without that one leading colon) or a literal part (any other
    piece, kept verbatim, possibly empty). */
module Parts {
  import opened Text

  datatype Part = Param(name: string) | Lit(text: string)

  predicate StartsWithColon(s: string)
  {
    |s| > 0 && s[0] == ':'
  }

  /** The pattern text a part stands for. */
  function Piece(p: Part): string
  {
    match p
    case Param(name) => [':'] + name
    case Lit(text) => text
  }

  /** The form every part produced by `ExtractParts` has: no `/` in it, and a
      literal never starts with `:` (that piece would have been a parameter). */
  predicate WellFormed(p: Part)
  {
    && '/' !in Piece(p)
    && (p.Lit? ==> !StartsWithColon(p.text))
  }

  /** Classifies one piece: a parameter exactly when the piece starts with `:`,
      and the part always stands for the piece it came from. */
  function Classify(piece: string): (p: Part)
    ensures p.Param? <==> StartsWithColon(piece)
    ensures Piece(p) == piece
  {
    if StartsWithColon(piece) then
      assert piece == [':'] + piece[1..];
      Param(piece[1..])
    else Lit(piece)
  }

  /** The pieces the parts stand for, in order. */
  function Pieces(parts: seq<Part>): seq<string>
  {
    seq(|parts|, i requires 0 <= i < |parts| => Piece(parts[i]))
  }

  /** The pattern the parts were extracted from (see `ExtractRoundTrip`). */
  function Unextract(parts: seq<Part>): string
  {
    Join(Pieces(parts), '/')
  }

  function ExtractParts(pattern: string): seq<Part>
  {
    var pieces := Split(pattern, '/');
    seq(|pieces|, i requires 0 <= i < |pieces| => Classify(pieces[i]))
  }

  predicate HasParam(parts: seq<Part>)
  {
    exists i :: 0 <= i < |parts| && parts[i].Param?
  }

  /** The parts are the `/`-separated pieces of the pattern, classified. */
  lemma ExtractPieces(pattern: string)
    ensures Pieces(ExtractParts(pattern)) == Split(pattern, '/')
  {
  }

  /** One part per `/` plus one, each well formed, and putting the colons back
      and joining with `/` gives the pattern back. */
  lemma ExtractRoundTrip(pattern: string)
    ensures |ExtractParts(pattern)| == multiset(pattern)['/'] + 1
    ensures forall i :: 0 <= i < |ExtractParts(pattern)| ==> WellFormed(ExtractParts(pattern)[i])
    ensures Unextract(ExtractParts(pattern)) == pattern
  {
    SplitCount(pattern, '/');
    SplitSepFree(pattern, '/');
    JoinSplit(pattern, '/');
    ExtractPieces(pattern);
  }

  /** The converse: any non-empty list of well-formed parts is what
      `ExtractParts` makes of the pattern it stands for. Together with
      `ExtractRoundTrip` this says the parts determine the pattern and back. */
  lemma UnextractRoundTrip(parts: seq<Part>)
    requires |parts| > 0
    requires forall i :: 0 <= i < |parts| ==> WellFormed(parts[i])
    ensures ExtractParts(Unextract(parts)) == parts
  {
    var pieces := Pieces(parts);
    SplitJoin(pieces, '/');
    var back := ExtractParts(Unextract(parts));
    assert |back| == |parts|;
    forall i | 0 <= i < |parts|
      ensures back[i] == parts[i]
    {
      assert back[i] == Classify(pieces[i]);
      if parts[i].Param? {
        assert pieces[i][1..] == parts[i].name;
      }
    }
  }

  /** A piece is a parameter exactly when it starts with `:`; only that one
      colon is removed, and a `:` anywhere else keeps the piece literal. */
  lemma ExtractClassifies(pattern: string, i: int)
    requires 0 <= i < |ExtractParts(pattern)|
    ensures var piece := Split(pattern, '/')[i];
      && (ExtractParts(pattern)[i].Param? <==> |piece| > 0 && piece[0] == ':')
      && (ExtractParts(pattern)[i].Param? ==> piece == [':'] + ExtractParts(pattern)[i].name)
      && (ExtractParts(pattern)[i].Lit? ==> piece == ExtractParts(pattern)[i].text)
  {
  }

  /** A leading `/` gives a leading empty literal part. */
  lemma ExtractLeadingSlash(pattern: string)
    requires |pattern| > 0 && pattern[0] == '/'
    ensures |ExtractParts(pattern)| > 0 && ExtractParts(pattern)[0] == Lit("")
  {
    SplitCons('/', pattern[1..], '/');
    assert pattern == ['/'] + pattern[1..];
  }

  /** `/a/:n` (a literal piece, then a parameter) has a leading empty literal,
      the literal `a` and the parameter `n`. */
  lemma ExtractLitParam(a: string, n: string)
    requires '/' !in a && !StartsWithColon(a) && '/' !in n
    ensures ExtractParts("/" + a + "/:" + n) == [Lit(""), Lit(a), Param(n)]
  {
    var parts := [Lit(""), Lit(a), Param(n)];
    var pieces := ["", a, [':'] + n];
    assert Pieces(parts) == pieces;
    assert Join(pieces[2..], '/') == [':'] + n;
    assert Join(pieces[1..], '/') == a + ['/'] + ([':'] + n) by {
      assert pieces[1..][1..] == pieces[2..];
    }
    assert Join(pieces, '/') == "/" + a + "/:" + n by {
      assert pieces[1..] == [a, [':'] + n];
    }
    UnextractRoundTrip(parts);
  }

  /** `/users/:id` has a leading empty literal, a literal and a parameter. */
  lemma ExtractUsersExample()
    ensures ExtractParts("/users/:id") == [Lit(""), Lit("users"), Param("id")]
  {
    assert "/" + "users" == "/users";
    assert "/users" + "/:" == "/users/:";
    assert "/users/:" + "id" == "/users/:id";
    ExtractLitParam("users", "id");
  }

  /** Only the first colon of `::x` goes; a colon inside `a:b` stays literal. */
  lemma ExtractColonExamples()
    ensures ExtractParts("::x") == [Param(":x")]
    ensures ExtractParts("a:b") == [Lit("a:b")]
    ensures ExtractParts("") == [Lit("")]
  {
    assert [':'] + ":x" == "::x";
    assert Pieces([Param(":x")]) == ["::x"];
    UnextractRoundTrip([Param(":x")]);
    assert Pieces([Lit("a:b")]) == ["a:b"];
    UnextractRoundTrip([Lit("a:b")]);
    assert Pieces([Lit("")]) == [""];
    UnextractRoundTrip([Lit("")]);
  }
}
