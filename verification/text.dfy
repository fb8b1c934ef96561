/** Strings as sequences of characters, and the two list operations the path
    builder leans on: JavaScript's `String.prototype.split` with a one-character
    separator, `Array.prototype.join`, and the `filter((value) => value !== '')`
    step that drops empty pieces. */
module Text {

  /** Concatenates `pieces`, putting one `sep` between neighbours
      (`Array.prototype.join`; an empty array joins to the empty string). */
  function Join(pieces: seq<string>, sep: char): string
  {
    if |pieces| == 0 then []
    else if |pieces| == 1 then pieces[0]
    else pieces[0] + [sep] + Join(pieces[1..], sep)
  }

  /** `s.split(sep)` for a one-character separator (see `SplitPieces`). */
  function Split(s: string, sep: char): seq<string>
    decreases |s|
  {
    if |s| == 0 then [[]]
    else
      var rest := Split(s[1..], sep);
      if s[0] == sep then [[]] + rest
      else [[s[0]] + rest[0]] + rest[1..]
  }

  /** `split` yields one piece per occurrence of `sep`, plus one. */
  lemma {:induction false} SplitCount(s: string, sep: char)
    ensures |Split(s, sep)| == multiset(s)[sep] + 1
    decreases |s|
  {
    if |s| > 0 {
      assert s == [s[0]] + s[1..];
      SplitCount(s[1..], sep);
    }
  }

  /** No piece of a `split` contains the separator. */
  lemma {:induction false} SplitSepFree(s: string, sep: char)
    ensures forall i :: 0 <= i < |Split(s, sep)| ==> sep !in Split(s, sep)[i]
    decreases |s|
  {
    if |s| > 0 {
      SplitSepFree(s[1..], sep);
    }
  }

  /** Joining the pieces of a `split` gives the input back. */
  lemma {:induction false} JoinSplit(s: string, sep: char)
    ensures Join(Split(s, sep), sep) == s
    decreases |s|
  {
    if |s| > 0 {
      var t := s[1..];
      assert s == [s[0]] + t;
      JoinSplit(t, sep);
      var rest := Split(t, sep);
      if s[0] != sep && |rest| > 1 {
        var p := Split(s, sep);
        assert p[1..] == rest[1..];
      }
    }
  }

  /** How `Split` treats the first character of a non-empty string. */
  lemma SplitCons(c: char, t: string, sep: char)
    ensures c == sep ==> Split([c] + t, sep) == [[]] + Split(t, sep)
    ensures c != sep ==> Split([c] + t, sep) == [[c] + Split(t, sep)[0]] + Split(t, sep)[1..]
  {
    assert ([c] + t)[1..] == t;
  }

  /** Extending the head of a list commutes with appending more pieces. */
  lemma ExtendHeadAppend(c: char, xs: seq<string>, ys: seq<string>)
    requires |xs| > 0
    ensures [[c] + (xs + ys)[0]] + (xs + ys)[1..] == ([[c] + xs[0]] + xs[1..]) + ys
  {
    assert (xs + ys)[0] == xs[0];
    assert (xs + ys)[1..] == xs[1..] + ys;
  }

  /** One induction step of `SplitAround`, from the claim for `a[1..]` to the
      claim for `a`, when `a` starts with an ordinary character. */
  lemma SplitAroundStep(a: string, b: string, sep: char)
    requires |a| > 0 && a[0] != sep
    requires Split(a[1..] + [sep] + b, sep) == Split(a[1..], sep) + Split(b, sep)
    ensures Split(a + [sep] + b, sep) == Split(a, sep) + Split(b, sep)
  {
    var c, t := a[0], a[1..];
    var x := t + [sep] + b;
    assert a + [sep] + b == [c] + x by {
      assert a == [c] + t;
    }
    assert a == [c] + t;
    SplitCons(c, x, sep);
    SplitCons(c, t, sep);
    SplitNonEmpty(t, sep);
    ExtendHeadAppend(c, Split(t, sep), Split(b, sep));
  }

  /** The same step when `a` starts with the separator. */
  lemma SplitAroundSepStep(a: string, b: string, sep: char)
    requires |a| > 0 && a[0] == sep
    requires Split(a[1..] + [sep] + b, sep) == Split(a[1..], sep) + Split(b, sep)
    ensures Split(a + [sep] + b, sep) == Split(a, sep) + Split(b, sep)
  {
    var t := a[1..];
    var x := t + [sep] + b;
    assert a + [sep] + b == [sep] + x by {
      assert a == [sep] + t;
    }
    assert a == [sep] + t;
    SplitCons(sep, x, sep);
    SplitCons(sep, t, sep);
    ConsAppend([], Split(t, sep), Split(b, sep));
  }

  /** Putting a piece in front commutes with appending more pieces. */
  lemma ConsAppend(h: string, xs: seq<string>, ys: seq<string>)
    ensures [h] + (xs + ys) == ([h] + xs) + ys
  {
  }

  /** `split` never returns an empty list. */
  lemma SplitNonEmpty(s: string, sep: char)
    ensures |Split(s, sep)| > 0
  {
  }

  /** Splitting around one separator splits each side independently. */
  lemma {:induction false} SplitAround(a: string, b: string, sep: char)
    ensures Split(a + [sep] + b, sep) == Split(a, sep) + Split(b, sep)
    decreases |a|
  {
    if |a| == 0 {
      assert a + [sep] + b == [sep] + b;
      SplitCons(sep, b, sep);
    } else {
      SplitAround(a[1..], b, sep);
      if a[0] == sep {
        SplitAroundSepStep(a, b, sep);
      } else {
        SplitAroundStep(a, b, sep);
      }
    }
  }

  /** A string without the separator is a single piece. */
  lemma SplitWithoutSep(a: string, sep: char)
    requires sep !in a
    ensures Split(a, sep) == [a]
  {
    SplitCount(a, sep);
    JoinSplit(a, sep);
    var p := Split(a, sep);
    assert multiset(a)[sep] == 0;
    assert |p| == 1;
    assert Join(p, sep) == p[0];
  }

  /** Splitting undoes joining, for a non-empty list of separator-free pieces. */
  lemma {:induction false} SplitJoin(pieces: seq<string>, sep: char)
    requires |pieces| > 0
    requires forall i :: 0 <= i < |pieces| ==> sep !in pieces[i]
    ensures Split(Join(pieces, sep), sep) == pieces
    decreases |pieces|
  {
    SplitWithoutSep(pieces[0], sep);
    if |pieces| > 1 {
      SplitJoin(pieces[1..], sep);
      SplitAround(pieces[0], Join(pieces[1..], sep), sep);
      assert pieces == [pieces[0]] + pieces[1..];
    }
  }

  /** Every character of a join is the separator or a character of a piece. */
  lemma {:induction false} JoinMembers(pieces: seq<string>, sep: char, c: char)
    requires c in Join(pieces, sep) && c != sep
    ensures exists i :: 0 <= i < |pieces| && c in pieces[i]
    decreases |pieces|
  {
    if |pieces| > 1 {
      if c !in pieces[0] {
        JoinMembers(pieces[1..], sep, c);
        var i :| 0 <= i < |pieces[1..]| && c in pieces[1..][i];
        assert c in pieces[i + 1];
      }
    }
  }

  /** `filter((value) => value !== '')`: the non-empty pieces, in order (see
      `NonEmptyFilters`). */
  function NonEmpty(xs: seq<string>): seq<string>
  {
    if |xs| == 0 then []
    else if xs[0] == [] then NonEmpty(xs[1..])
    else [xs[0]] + NonEmpty(xs[1..])
  }

  /** The filter keeps exactly the non-empty pieces, and keeps a list with no
      empty piece whole. */
  lemma {:induction false} NonEmptyFilters(xs: seq<string>)
    ensures |NonEmpty(xs)| <= |xs|
    ensures forall i :: 0 <= i < |NonEmpty(xs)| ==> NonEmpty(xs)[i] != []
    ensures forall y :: y in NonEmpty(xs) <==> y in xs && y != []
    ensures (forall i :: 0 <= i < |xs| ==> xs[i] != []) ==> NonEmpty(xs) == xs
    decreases |xs|
  {
    if |xs| > 0 {
      NonEmptyFilters(xs[1..]);
      assert xs == [xs[0]] + xs[1..];
    }
  }

  /** Filtering distributes over concatenation. */
  lemma {:induction false} NonEmptyAppend(a: seq<string>, b: seq<string>)
    ensures NonEmpty(a + b) == NonEmpty(a) + NonEmpty(b)
    decreases |a|
  {
    if |a| > 0 {
      assert (a + b)[1..] == a[1..] + b;
      NonEmptyAppend(a[1..], b);
    } else {
      assert a + b == b;
    }
  }
}
