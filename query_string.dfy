/** A URL query string as an ordered list of name/value pairs, as a
    URLSearchParams object holds it on the client and as the server parses it
    back into its query parameters. Percent-encoding is abstract: an encoder
    `enc` and a decoder `dec` passed in by the caller. */
module QueryString {

  type Param = (string, string)

  /** The pieces joined with `sep` between neighbours; no pieces give "". */
  function Join(pieces: seq<string>, sep: char): string
  {
    if pieces == [] then ""
    else if |pieces| == 1 then pieces[0]
    else pieces[0] + [sep] + Join(pieces[1..], sep)
  }

  /** Cut at every `sep`: one more piece than there are separators. */
  function Split(s: string, sep: char): (r: seq<string>)
    ensures |r| >= 1
    decreases |s|
  {
    if s == [] then [""]
    else
      var rest := Split(s[1..], sep);
      if s[0] == sep then [""] + rest else [[s[0]] + rest[0]] + rest[1..]
  }

  lemma {:induction false} SplitWithoutSeparator(a: string, sep: char)
    requires sep !in a
    ensures Split(a, sep) == [a]
    decreases |a|
  {
    if a != [] {
      SplitWithoutSeparator(a[1..], sep);
      assert [a[0]] + a[1..] == a;
    }
  }

  lemma {:induction false} SplitAfterFirstPiece(a: string, b: string, sep: char)
    requires sep !in a
    ensures Split(a + [sep] + b, sep) == [a] + Split(b, sep)
    decreases |a|
  {
    var s := a + [sep] + b;
    if a == [] {
      assert s[1..] == b;
    } else {
      assert s[1..] == a[1..] + [sep] + b;
      SplitAfterFirstPiece(a[1..], b, sep);
      assert [a[0]] + a[1..] == a;
    }
  }

  /** Splitting undoes joining when no piece contains the separator. */
  lemma {:induction false} SplitJoin(pieces: seq<string>, sep: char)
    requires |pieces| >= 1
    requires forall i :: 0 <= i < |pieces| ==> sep !in pieces[i]
    ensures Split(Join(pieces, sep), sep) == pieces
    decreases |pieces|
  {
    if |pieces| == 1 {
      SplitWithoutSeparator(pieces[0], sep);
    } else {
      SplitJoin(pieces[1..], sep);
      SplitAfterFirstPiece(pieces[0], Join(pieces[1..], sep), sep);
      assert [pieces[0]] + pieces[1..] == pieces;
    }
  }

  /** One `name=value` piece of the serialized form. */
  function Piece(p: Param, enc: string -> string): string
  {
    enc(p.0) + "=" + enc(p.1)
  }

  function Pieces(ps: seq<Param>, enc: string -> string): (r: seq<string>)
    ensures |r| == |ps|
    ensures forall i :: 0 <= i < |ps| ==> r[i] == Piece(ps[i], enc)
  {
    if ps == [] then [] else [Piece(ps[0], enc)] + Pieces(ps[1..], enc)
  }

  /** The `toString()` of the parameter list: the encoded pairs joined by '&'. */
  function Serialize(ps: seq<Param>, enc: string -> string): (r: string)
    ensures r == "" <==> ps == []
    ensures |ps| == 1 ==> r == Piece(ps[0], enc)
  {
    Join(Pieces(ps, enc), '&')
  }

  /** The part of `s` before its first `c`, and the part after it
      (all of `s` and "" when `c` does not occur). */
  function BeforeFirst(s: string, c: char): (r: string)
    decreases |s|
  {
    if s == [] || s[0] == c then [] else [s[0]] + BeforeFirst(s[1..], c)
  }

  function AfterFirst(s: string, c: char): (r: string)
    decreases |s|
  {
    if s == [] then [] else if s[0] == c then s[1..] else AfterFirst(s[1..], c)
  }

  lemma {:induction false} FirstSplitOfPiece(a: string, b: string, c: char)
    requires c !in a
    ensures BeforeFirst(a + [c] + b, c) == a
    ensures AfterFirst(a + [c] + b, c) == b
    decreases |a|
  {
    var s := a + [c] + b;
    if a == [] {
      assert s[1..] == b;
    } else {
      assert s[1..] == a[1..] + [c] + b;
      FirstSplitOfPiece(a[1..], b, c);
      assert [a[0]] + a[1..] == a;
    }
  }

  /** The pieces with the empty ones skipped: every non-empty piece is kept
      as often as it occurs, and nothing else appears. */
  function DropEmpty(pieces: seq<string>): (r: seq<string>)
    ensures |r| <= |pieces|
    ensures forall i :: 0 <= i < |r| ==> r[i] != ""
    ensures forall p :: p in r <==> p in pieces && p != ""
    ensures forall p :: p != "" ==> multiset(r)[p] == multiset(pieces)[p]
  {
    if pieces == [] then []
    else
      assert pieces == [pieces[0]] + pieces[1..];
      if pieces[0] == "" then DropEmpty(pieces[1..])
      else [pieces[0]] + DropEmpty(pieces[1..])
  }

  /** Each non-empty piece holds at least one character of the text. */
  lemma {:induction false} SplitPieceCount(s: string, sep: char)
    ensures |DropEmpty(Split(s, sep))| <= |s|
    decreases |s|
  {
    if s != [] {
      SplitPieceCount(s[1..], sep);
      var rest := Split(s[1..], sep);
      assert rest == [rest[0]] + rest[1..];
      assert |DropEmpty(rest[1..])| <= |DropEmpty(rest)|;
    }
  }

  function PairOf(piece: string): Param
  {
    (BeforeFirst(piece, '='), AfterFirst(piece, '='))
  }

  function PairsOf(pieces: seq<string>): (r: seq<Param>)
    ensures |r| == |pieces|
    ensures forall i :: 0 <= i < |pieces| ==> r[i] == PairOf(pieces[i])
  {
    if pieces == [] then [] else [PairOf(pieces[0])] + PairsOf(pieces[1..])
  }

  /** The form-urlencoded parser, before decoding: cut at '&', skip empty
      pieces, cut each piece at its first '='. */
  function Parse(qs: string): (r: seq<Param>)
    ensures qs == "" ==> r == []
    ensures qs != "" && '&' !in qs ==> r == [PairOf(qs)]
    ensures |r| <= |qs|
  {
    SplitPieceCount(qs, '&');
    if qs != "" && '&' !in qs then
      SplitWithoutSeparator(qs, '&');
      PairsOf(DropEmpty(Split(qs, '&')))
    else
      PairsOf(DropEmpty(Split(qs, '&')))
  }

  /** `f` applied to both halves of every pair: percent-encoding the pairs
      with the encoder, or decoding them with the decoder. */
  function MapPairs(ps: seq<Param>, f: string -> string): (r: seq<Param>)
    ensures |r| == |ps|
    ensures forall i :: 0 <= i < |ps| ==> r[i] == (f(ps[i].0), f(ps[i].1))
  {
    if ps == [] then [] else [(f(ps[0].0), f(ps[0].1))] + MapPairs(ps[1..], f)
  }

  /** What a form encoder guarantees: its output never holds the two
      delimiters of the query syntax. */
  ghost predicate DelimiterFree(enc: string -> string)
  {
    forall s :: '&' !in enc(s) && '=' !in enc(s)
  }

  /** Parsing a serialized list gives back the encoded pairs, in order. */
  lemma ParseSerialize(ps: seq<Param>, enc: string -> string)
    requires DelimiterFree(enc)
    ensures Parse(Serialize(ps, enc)) == MapPairs(ps, enc)
  {
    var pieces := Pieces(ps, enc);
    if ps == [] {
      assert Split("", '&') == [""];
    } else {
      forall i | 0 <= i < |pieces| ensures '&' !in pieces[i] {
        assert pieces[i] == enc(ps[i].0) + "=" + enc(ps[i].1);
        assert '&' !in enc(ps[i].0) && '&' !in enc(ps[i].1);
      }
      SplitJoin(pieces, '&');
      DropEmptyKeepsNonEmpty(pieces);
      forall i | 0 <= i < |pieces| ensures PairOf(pieces[i]) == (enc(ps[i].0), enc(ps[i].1)) {
        assert '=' !in enc(ps[i].0);
        FirstSplitOfPiece(enc(ps[i].0), enc(ps[i].1), '=');
        assert pieces[i] == enc(ps[i].0) + ['='] + enc(ps[i].1);
      }
    }
  }

  lemma {:induction false} DropEmptyKeepsNonEmpty(pieces: seq<string>)
    requires forall i :: 0 <= i < |pieces| ==> pieces[i] != ""
    ensures DropEmpty(pieces) == pieces
  {
    if pieces != [] {
      DropEmptyKeepsNonEmpty(pieces[1..]);
      assert [pieces[0]] + pieces[1..] == pieces;
    }
  }

  /** Decoding undoes encoding pair by pair when `dec` inverts `enc`. */
  lemma DecodeEncode(ps: seq<Param>, enc: string -> string, dec: string -> string)
    requires forall s :: dec(enc(s)) == s
    ensures MapPairs(MapPairs(ps, enc), dec) == ps
  {
  }

  /** The parameter map the server builds: a later pair overrides an earlier
      one with the same name, so a lookup gives the last value sent. */
  function ParamMap(ps: seq<Param>): (m: map<string, string>)
    ensures forall k :: k in m <==> exists i :: 0 <= i < |ps| && ps[i].0 == k
    decreases |ps|
  {
    if ps == [] then map[]
    else
      var last := ps[|ps| - 1];
      var rest := ParamMap(ps[..|ps| - 1]);
      assert forall i :: 0 <= i < |ps| - 1 ==> ps[..|ps| - 1][i] == ps[i];
      rest[last.0 := last.1]
  }

  predicate DistinctNames(ps: seq<Param>)
  {
    forall i, j :: 0 <= i < j < |ps| ==> ps[i].0 != ps[j].0
  }

  /** With distinct names every pair is found under its own name. */
  lemma {:induction false} ParamMapLookup(ps: seq<Param>, i: int)
    requires DistinctNames(ps)
    requires 0 <= i < |ps|
    ensures ps[i].0 in ParamMap(ps) && ParamMap(ps)[ps[i].0] == ps[i].1
    decreases |ps|
  {
    if i < |ps| - 1 {
      var init := ps[..|ps| - 1];
      assert init[i] == ps[i];
      assert DistinctNames(init) by {
        forall a, b | 0 <= a < b < |init| ensures init[a].0 != init[b].0 {
          assert init[a] == ps[a] && init[b] == ps[b];
        }
      }
      ParamMapLookup(init, i);
    }
  }
}
