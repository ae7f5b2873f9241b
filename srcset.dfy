/** The fallback parser for a `data-srcset` attribute
    (`ImageOptimizer.parseSrcset`): the attribute is split on commas, each
    piece is trimmed and split on single spaces, the first token is the url
    and the second token's `parseInt` value is the width, 0 when that token
    is missing or not a number. This is the source's own simplified rule, not
    the HTML Standard's srcset algorithm: descriptors such as `2x` are read
    as widths, and a double space leaves an empty width token. */
module Srcset {
  import opened Wrappers
  import opened JsStrings
  import opened JsNumbers

  /** One candidate image: `{ url, width }`. */
  datatype Source = Source(url: string, width: int)

  /** `parseInt(token) || 0`: `NaN`, `0` and `-0` all become 0. */
  function WidthOf(token: string): (w: int)
    ensures ParseInt(token) == Some(w) || (ParseInt(token).None? && w == 0)
    ensures w != 0 ==> ParseInt(token) == Some(w)
  {
    match ParseInt(token)
    case Some(n) => n
    case None => 0
  }

  /** One comma-separated piece: `const [url, width] = piece.trim().split(' ')`.
      A missing second token is `undefined`, and `parseInt(undefined)` is
      `NaN`, so the width is 0. */
  function ParseEntry(piece: string): (e: Source)
    ensures var t := Trim(piece); |e.url| <= |t| && e.url == t[..|e.url|] && ' ' !in e.url
    ensures ' ' !in Trim(piece) ==> e == Source(Trim(piece), 0)
  {
    var tokens := Split(Trim(piece), ' ');
    SplitHeadTail(Trim(piece), ' ');
    Source(tokens[0], if |tokens| >= 2 then WidthOf(tokens[1]) else 0)
  }

  /** `srcset.split(',').map(...)`: one candidate per comma-separated piece,
      so never an empty list. */
  function ParseSrcset(srcset: string): (sources: seq<Source>)
    ensures |sources| == Occurrences(srcset, ',') + 1
    ensures |sources| > 0
  {
    var pieces := Split(srcset, ',');
    seq(|pieces|, i requires 0 <= i < |pieces| => ParseEntry(pieces[i]))
  }

  /** The candidates of comma-joined pieces are the pieces' own entries, in
      order, one per piece. */
  lemma ParseSrcsetPieces(pieces: seq<string>)
    requires |pieces| > 0
    requires forall i :: 0 <= i < |pieces| ==> ',' !in pieces[i]
    ensures |ParseSrcset(Join(pieces, ','))| == |pieces|
    ensures forall i :: 0 <= i < |pieces| ==> ParseSrcset(Join(pieces, ','))[i] == ParseEntry(pieces[i])
  {
    SplitJoin(pieces, ',');
  }

  /** The url of an entry is the text of the trimmed piece up to its first
      space; the width is read from the text between the first and the second
      space, and is 0 when there is no space at all. */
  lemma ParseEntryTokens(piece: string)
    ensures var t := Trim(piece);
            var k := SpanUntil(t, ' ');
            ParseEntry(piece).url == t[..k] &&
            ParseEntry(piece).width ==
              if k == |t| then 0 else WidthOf(TakeUntil(t[k + 1..], ' '))
  {
    var t := Trim(piece);
    var k := SpanUntil(t, ' ');
    SplitHeadTail(t, ' ');
    if k < |t| {
      SplitHeadTail(t[k + 1..], ' ');
    }
  }

  /** A url that survives the parser unchanged: not empty, no white space,
      no comma. */
  predicate PlainUrl(url: string)
  {
    |url| > 0 && forall i :: 0 <= i < |url| ==> !IsJsSpace(url[i]) && url[i] != ','
  }

  predicate Renderable(e: Source)
  {
    PlainUrl(e.url) && e.width >= 0
  }

  /** The usual way to write a candidate: `url 400w`. */
  function Descriptor(e: Source): string
    requires e.width >= 0
  {
    e.url + " " + Decimal(e.width) + "w"
  }

  /** Candidates written as an attribute value, `a.jpg 400w, b.jpg 800w`. */
  function RenderSrcset(sources: seq<Source>): string
    requires forall i :: 0 <= i < |sources| ==> Renderable(sources[i])
  {
    Join(RenderedPieces(sources), ',')
  }

  function RenderedPieces(sources: seq<Source>): (pieces: seq<string>)
    requires forall i :: 0 <= i < |sources| ==> Renderable(sources[i])
    ensures |pieces| == |sources|
  {
    seq(|sources|, i requires 0 <= i < |sources| && Renderable(sources[i]) =>
      (if i == 0 then "" else " ") + Descriptor(sources[i]))
  }

  /** The text after the url, `400w`, holds neither space nor comma. */
  lemma WidthTokenIsPlain(width: nat)
    ensures var token := Decimal(width) + "w";
            ' ' !in token && ',' !in token && !IsJsSpace(token[|token| - 1])
  {
    var z := Decimal(width);
    forall i | 0 <= i < |z|
      ensures z[i] != ' ' && z[i] != ','
    {
      DecimalDigitIsPlain(z[i]);
    }
  }

  /** A written candidate, with any white space in front, parses back to
      itself. */
  lemma ParseEntryDescriptor(pad: string, e: Source)
    requires AllSpace(pad)
    requires Renderable(e)
    ensures ParseEntry(pad + Descriptor(e)) == e
  {
    var token := Decimal(e.width) + "w";
    var d := Descriptor(e);
    WidthTokenIsPlain(e.width);
    assert d[0] == e.url[0];
    assert d == e.url + [' '] + token;
    TrimPadded(pad, d, []);
    assert pad + d + [] == pad + d;
    SplitCons(e.url, ' ', token);
    SplitPiece(token, ' ');
    ParseIntDecimal(e.width, "w");
  }

  /** Parsing written candidates gives them back: `ParseSrcset` inverts
      `RenderSrcset` on every non-empty list of plain candidates. */
  lemma ParseRenderSrcset(sources: seq<Source>)
    requires |sources| > 0
    requires forall i :: 0 <= i < |sources| ==> Renderable(sources[i])
    ensures ParseSrcset(RenderSrcset(sources)) == sources
  {
    var pieces := RenderedPieces(sources);
    forall i | 0 <= i < |pieces|
      ensures ',' !in pieces[i] && ParseEntry(pieces[i]) == sources[i]
    {
      var pad := if i == 0 then "" else " ";
      WidthTokenIsPlain(sources[i].width);
      assert pieces[i] == pad + sources[i].url + " " + (Decimal(sources[i].width) + "w");
      ParseEntryDescriptor(pad, sources[i]);
    }
    ParseSrcsetPieces(pieces);
  }
}
