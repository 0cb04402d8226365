/** A string as a replace-all pass over a regular expression sees it: the
    matches, in order, with the single bytes between them. */
module Segments {

  datatype Segment = Chr(c: char) | Hole(text: string)

  /** The string the segments were cut from. */
  function Flatten(segs: seq<Segment>): string
  {
    if |segs| == 0 then []
    else Flatten(segs[..|segs| - 1]) + Piece(segs[|segs| - 1])
  }

  function Piece(s: Segment): string
  {
    match s
    case Chr(c) => [c]
    case Hole(t) => t
  }

  /** `ReplaceAllStringFunc`: each match replaced by `f` of its text, the text
      between matches copied. */
  function Render(segs: seq<Segment>, f: string -> string): string
  {
    if |segs| == 0 then []
    else Render(segs[..|segs| - 1], f) + RenderPiece(segs[|segs| - 1], f)
  }

  function RenderPiece(s: Segment, f: string -> string): string
  {
    match s
    case Chr(c) => [c]
    case Hole(t) => f(t)
  }

  /** The matches, in order. */
  function Holes(segs: seq<Segment>): (r: seq<string>)
    ensures |r| <= |segs|
  {
    if |segs| == 0 then []
    else Holes(segs[..|segs| - 1]) + (if segs[|segs| - 1].Hole? then [segs[|segs| - 1].text] else [])
  }

  /** With no match, a replace-all pass copies its input. */
  lemma {:induction false} RenderWithoutHoles(segs: seq<Segment>, f: string -> string)
    requires Holes(segs) == []
    ensures Render(segs, f) == Flatten(segs)
  {
    if |segs| > 0 {
      var init := segs[..|segs| - 1];
      assert |Holes(init)| <= |Holes(segs)|;
      RenderWithoutHoles(init, f);
    }
  }

  /** One more segment: its rendering is appended and its match, if any. */
  lemma RenderStep(segs: seq<Segment>, j: nat, f: string -> string)
    requires j < |segs|
    ensures Render(segs[..j + 1], f) == Render(segs[..j], f) + RenderPiece(segs[j], f)
    ensures Holes(segs[..j + 1]) == Holes(segs[..j]) + (if segs[j].Hole? then [segs[j].text] else [])
  {
    assert segs[..j + 1][..j] == segs[..j];
  }

  /** One segment more at the end. */
  lemma FlattenSnoc(s: seq<Segment>, x: Segment)
    ensures Flatten(s + [x]) == Flatten(s) + Piece(x)
  {
    assert (s + [x])[..|s|] == s;
  }

  lemma RenderSnoc(s: seq<Segment>, x: Segment, f: string -> string)
    ensures Render(s + [x], f) == Render(s, f) + RenderPiece(x, f)
  {
    assert (s + [x])[..|s|] == s;
  }

  lemma HolesSnoc(s: seq<Segment>, x: Segment)
    ensures Holes(s + [x]) == Holes(s) + (if x.Hole? then [x.text] else [])
  {
    assert (s + [x])[..|s|] == s;
  }

  /** The matches of a prefix are a prefix of the matches. */
  lemma HolesPrefix(segs: seq<Segment>, j: nat)
    requires j <= |segs|
    ensures |Holes(segs[..j])| <= |Holes(segs)|
    ensures Holes(segs)[..|Holes(segs[..j])|] == Holes(segs[..j])
  {
    assert segs == segs[..j] + segs[j..];
    HolesAppend(segs[..j], segs[j..]);
  }

  /** One segment more at the front. */
  lemma HolesCons(x: Segment, s: seq<Segment>)
    ensures Holes([x] + s) == (if x.Hole? then [x.text] else []) + Holes(s)
  {
    HolesAppend([x], s);
    assert Holes([x]) == (if x.Hole? then [x.text] else []);
  }

  /** Cutting the segments in two cuts the string they come from in two. */
  lemma {:induction false} FlattenAppend(a: seq<Segment>, b: seq<Segment>)
    ensures Flatten(a + b) == Flatten(a) + Flatten(b)
    decreases |b|
  {
    if |b| == 0 {
      assert a + b == a;
    } else {
      var init, x := b[..|b| - 1], b[|b| - 1];
      assert b == init + [x];
      calc {
        Flatten(a + b);
        { assert a + b == (a + init) + [x]; }
        Flatten((a + init) + [x]);
        { FlattenSnoc(a + init, x); }
        Flatten(a + init) + Piece(x);
        { FlattenAppend(a, init); }
        Flatten(a) + Flatten(init) + Piece(x);
        { FlattenSnoc(init, x); }
        Flatten(a) + Flatten(b);
      }
    }
  }

  lemma {:induction false} RenderAppend(a: seq<Segment>, b: seq<Segment>, f: string -> string)
    ensures Render(a + b, f) == Render(a, f) + Render(b, f)
    decreases |b|
  {
    if |b| == 0 {
      assert a + b == a;
    } else {
      var init, x := b[..|b| - 1], b[|b| - 1];
      assert b == init + [x];
      calc {
        Render(a + b, f);
        { assert a + b == (a + init) + [x]; }
        Render((a + init) + [x], f);
        { RenderSnoc(a + init, x, f); }
        Render(a + init, f) + RenderPiece(x, f);
        { RenderAppend(a, init, f); }
        Render(a, f) + Render(init, f) + RenderPiece(x, f);
        { RenderSnoc(init, x, f); }
        Render(a, f) + Render(b, f);
      }
    }
  }

  lemma {:induction false} HolesAppend(a: seq<Segment>, b: seq<Segment>)
    ensures Holes(a + b) == Holes(a) + Holes(b)
    decreases |b|
  {
    if |b| == 0 {
      assert a + b == a;
    } else {
      var init, x := b[..|b| - 1], b[|b| - 1];
      assert b == init + [x];
      calc {
        Holes(a + b);
        { assert a + b == (a + init) + [x]; }
        Holes((a + init) + [x]);
        { HolesSnoc(a + init, x); }
        Holes(a + init) + (if x.Hole? then [x.text] else []);
        { HolesAppend(a, init); }
        Holes(a) + Holes(init) + (if x.Hole? then [x.text] else []);
        { HolesSnoc(init, x); }
        Holes(a) + Holes(b);
      }
    }
  }
}
