/**
 * The HTML serialiser of htl.py: an element holds a tag, keyword attributes in
 * insertion order and positional children; serialising it yields the opening
 * tag, each attribute, `>`, each child, and the closing tag. String children are
 * escaped, nested elements are emitted as they are, other iterables are
 * flattened, and any other value is shown with `str()`.
 */
module Htl {
  import opened Base

  /** One keyword attribute, its value already shown with `str()`. */
  datatype Attribute = Attribute(name: string, value: string)

  /** A value that can be a child: an `HTMLElement`, a `str`, another iterable, or anything else. */
  datatype Html =
    | Element(tag: string, attributes: seq<Attribute>, children: seq<Html>)
    | Text(s: string)
    | Items(items: seq<Html>)
    | Other(shown: string)

  /** The strings the generators yield, by kind. */
  datatype Piece =
    | StartTag(tag: string)
    | AttributeText(name: string, value: string)
    | StartEnd
    | Chunk(text: string)
    | EndTag(tag: string)

  function Render(p: Piece): string {
    match p
    case StartTag(t) => "<" + t
    case AttributeText(n, v) => " " + n + "=\"" + v + "\""
    case StartEnd => ">"
    case Chunk(s) => s
    case EndTag(t) => "</" + t + ">"
  }

  /** `"".join(pieces)`. */
  function RenderAll(ps: seq<Piece>): string {
    if |ps| == 0 then "" else Render(ps[0]) + RenderAll(ps[1..])
  }

  // ---------------------------------------------------------------------------
  // Escaping
  // ---------------------------------------------------------------------------

  /** `html.escape` with `quote=True`, one character at a time. */
  function EscapeChar(c: char): string {
    if c == '&' then "&amp;"
    else if c == '<' then "&lt;"
    else if c == '>' then "&gt;"
    else if c == '"' then "&quot;"
    else if c == '\'' then "&#x27;"
    else [c]
  }

  /** A character that never survives escaping. */
  predicate Markup(c: char) {
    c == '<' || c == '>' || c == '"' || c == '\''
  }

  function Escape(s: string): (r: string)
    ensures forall i :: 0 <= i < |r| ==> !Markup(r[i])
    ensures |r| >= |s|
  {
    if |s| == 0 then "" else EscapeChar(s[0]) + Escape(s[1..])
  }

  /** The inverse of `Escape`: each of its five entities back to its character. */
  function Unescape(s: string): string {
    if |s| == 0 then ""
    else if s[0] == '&' && |s| >= 5 && s[..5] == "&amp;" then "&" + Unescape(s[5..])
    else if s[0] == '&' && |s| >= 4 && s[..4] == "&lt;" then "<" + Unescape(s[4..])
    else if s[0] == '&' && |s| >= 4 && s[..4] == "&gt;" then ">" + Unescape(s[4..])
    else if s[0] == '&' && |s| >= 6 && s[..6] == "&quot;" then "\"" + Unescape(s[6..])
    else if s[0] == '&' && |s| >= 6 && s[..6] == "&#x27;" then "'" + Unescape(s[6..])
    else [s[0]] + Unescape(s[1..])
  }

  /** Escaping loses nothing: the text a string child contributes decodes back to it. */
  lemma {:induction false} EscapeRoundTrip(s: string)
    ensures Unescape(Escape(s)) == s
  {
    if |s| > 0 {
      EscapeRoundTrip(s[1..]);
      UnescapeChar(s[0], Escape(s[1..]));
      assert s == [s[0]] + s[1..];
    }
  }

  /** Decoding one escaped character gives the character back and leaves the rest to decode. */
  lemma UnescapeChar(c: char, rest: string)
    ensures Unescape(EscapeChar(c) + rest) == [c] + Unescape(rest)
  {
    var e := EscapeChar(c) + rest;
    if c == '&' {
      assert e[..5] == "&amp;" && e[5..] == rest;
    } else if c == '<' {
      UnescapeShort(e, "&lt;", rest);
    } else if c == '>' {
      UnescapeShort(e, "&gt;", rest);
    } else if c == '"' {
      UnescapeLong(e, "&quot;", rest);
    } else if c == '\'' {
      UnescapeLong(e, "&#x27;", rest);
    } else {
      assert e[0] == c && e[1..] == rest;
    }
  }

  /** A four-character entity is neither `&amp;` nor cut short. */
  lemma UnescapeShort(e: string, entity: string, rest: string)
    requires entity == "&lt;" || entity == "&gt;"
    requires e == entity + rest
    ensures e[0] == '&' && |e| >= 4 && e[..4] == entity && e[4..] == rest
    ensures !(|e| >= 5 && e[..5] == "&amp;")
  {
    assert e[1] == entity[1];
  }

  /** A six-character entity is none of the shorter ones. */
  lemma UnescapeLong(e: string, entity: string, rest: string)
    requires entity == "&quot;" || entity == "&#x27;"
    requires e == entity + rest
    ensures e[0] == '&' && |e| >= 6 && e[..6] == entity && e[6..] == rest
    ensures !(|e| >= 5 && e[..5] == "&amp;") && e[..4] != "&lt;" && e[..4] != "&gt;"
    ensures entity == "&#x27;" ==> e[..6] != "&quot;"
  {
    assert e[1] == entity[1];
    assert e[..4][1] == e[1];
    assert e[..5][1] == e[1];
    assert e[..6][1] == e[1];
  }

  // ---------------------------------------------------------------------------
  // Serialisation
  // ---------------------------------------------------------------------------

  function AttributePieces(attrs: seq<Attribute>): (ps: seq<Piece>)
    ensures |ps| == |attrs|
    ensures forall i :: 0 <= i < |attrs| ==> ps[i] == AttributeText(attrs[i].name, attrs[i].value)
  {
    if |attrs| == 0 then [] else [AttributeText(attrs[0].name, attrs[0].value)] + AttributePieces(attrs[1..])
  }

  /**
   * `_to_html`: an element yields its own pieces (`__iter__`), a string its
   * escaped text, any other iterable the pieces of each item in order, and
   * anything else its `str()`.
   */
  function ToHtml(h: Html): (ps: seq<Piece>)
    ensures h.Text? ==> RenderAll(ps) == Escape(h.s) && Unescape(RenderAll(ps)) == h.s
    ensures h.Other? ==> RenderAll(ps) == h.shown
    decreases h, 1
  {
    match h
    case Element(t, attrs, ch) =>
      [StartTag(t)] + AttributePieces(attrs) + [StartEnd] + ChildrenPieces(ch) + [EndTag(t)]
    case Text(s) =>
      RenderSingle(Chunk(Escape(s)));
      EscapeRoundTrip(s);
      [Chunk(Escape(s))]
    case Items(xs) => ChildrenPieces(xs)
    case Other(s) =>
      RenderSingle(Chunk(s));
      [Chunk(s)]
  }

  /**
   * The pieces of each item in order. A string item stays one piece, its
   * escaped text: it is never iterated character by character.
   */
  function ChildrenPieces(xs: seq<Html>): (ps: seq<Piece>)
    ensures (forall i :: 0 <= i < |xs| ==> xs[i].Text?) ==>
              |ps| == |xs| && forall i :: 0 <= i < |xs| ==> ps[i] == Chunk(Escape(xs[i].s))
    decreases xs, 0
  {
    if |xs| == 0 then [] else ToHtml(xs[0]) + ChildrenPieces(xs[1..])
  }

  /** `str(element)`: the concatenation of what `__iter__` yields. */
  function Str(e: Html): (r: string)
    requires e.Element?
    ensures r == "<" + e.tag + RenderAll(AttributePieces(e.attributes)) + ">"
                 + RenderAll(ChildrenPieces(e.children)) + ("</" + e.tag + ">")
  {
    var attrs := AttributePieces(e.attributes);
    var kids := ChildrenPieces(e.children);
    var head := [StartTag(e.tag)] + attrs + [StartEnd];
    assert RenderAll(head) == "<" + e.tag + RenderAll(attrs) + ">" by {
      RenderAllAppend([StartTag(e.tag)] + attrs, [StartEnd]);
      RenderAllAppend([StartTag(e.tag)], attrs);
      RenderSingle(StartTag(e.tag));
      RenderSingle(StartEnd);
    }
    assert RenderAll(head + kids + [EndTag(e.tag)]) == RenderAll(head) + RenderAll(kids) + ("</" + e.tag + ">") by {
      RenderAllAppend(head + kids, [EndTag(e.tag)]);
      RenderAllAppend(head, kids);
      RenderSingle(EndTag(e.tag));
    }
    RenderAll(ToHtml(e))
  }

  lemma RenderSingle(p: Piece)
    ensures RenderAll([p]) == Render(p)
  {
    assert [p][1..] == [];
    assert Render(p) + "" == Render(p);
  }

  /** Rendering distributes over concatenation of pieces. */
  lemma {:induction false} RenderAllAppend(a: seq<Piece>, b: seq<Piece>)
    ensures RenderAll(a + b) == RenderAll(a) + RenderAll(b)
  {
    if |a| == 0 {
      assert a + b == b;
    } else {
      assert (a + b)[0] == a[0];
      assert (a + b)[1..] == a[1..] + b;
      RenderAllAppend(a[1..], b);
    }
  }

  /** The attributes render as ` name="value"` each, in insertion order, without escaping. */
  lemma {:induction false} AttributesRendered(attrs: seq<Attribute>)
    ensures |attrs| > 0 ==>
              RenderAll(AttributePieces(attrs))
              == " " + attrs[0].name + "=\"" + attrs[0].value + "\"" + RenderAll(AttributePieces(attrs[1..]))
    ensures |attrs| == 0 ==> RenderAll(AttributePieces(attrs)) == ""
  {
    if |attrs| > 0 {
      var ps := AttributePieces(attrs);
      assert ps[1..] == AttributePieces(attrs[1..]);
    }
  }

  /** A string child contributes its escaped text only: no raw markup characters. */
  lemma TextChildHasNoMarkup(s: string)
    ensures RenderAll(ToHtml(Text(s))) == Escape(s)
    ensures forall i :: 0 <= i < |RenderAll(ToHtml(Text(s)))| ==> !Markup(RenderAll(ToHtml(Text(s)))[i])
  {
    assert [Chunk(Escape(s))][1..] == [];
    assert Escape(s) + "" == Escape(s);
  }

  /**
   * What one child contributes: a nested element its own `str()`, not escaped
   * again; a string its escaped text, never split into characters; any other
   * value its `str()`, unescaped; an iterable its items' contributions in order.
   */
  lemma {:induction false} ChildRendered(h: Html)
    ensures h.Element? ==> RenderAll(ToHtml(h)) == Str(h)
    ensures h.Text? ==> RenderAll(ToHtml(h)) == Escape(h.s)
    ensures h.Other? ==> RenderAll(ToHtml(h)) == h.shown
    ensures h.Items? && |h.items| > 0 ==>
              RenderAll(ToHtml(h)) == RenderAll(ToHtml(h.items[0])) + RenderAll(ToHtml(Items(h.items[1..])))
  {
    match h
    case Element(_, _, _) =>
    case Text(s) => TextChildHasNoMarkup(s);
    case Other(s) => RenderSingle(Chunk(s));
    case Items(xs) =>
      if |xs| > 0 {
        RenderAllAppend(ToHtml(xs[0]), ChildrenPieces(xs[1..]));
      }
  }

  // ---------------------------------------------------------------------------
  // Well-nestedness
  // ---------------------------------------------------------------------------

  /**
   * Reading pieces left to right with a stack of open tags: a start tag opens,
   * an end tag must close the innermost open tag. `None` when one does not.
   */
  function Run(ps: seq<Piece>, open: seq<string>): Option<seq<string>> {
    if |ps| == 0 then Some(open)
    else
      match ps[0]
      case StartTag(t) => Run(ps[1..], open + [t])
      case EndTag(t) =>
        if |open| > 0 && open[|open| - 1] == t then Run(ps[1..], open[..|open| - 1]) else None
      case _ => Run(ps[1..], open)
  }

  /** Reading `a + b` is reading `a`, then `b` from where `a` left off. */
  lemma {:induction false} RunAppend(a: seq<Piece>, b: seq<Piece>, open: seq<string>)
    ensures Run(a + b, open) == (match Run(a, open) case None => None case Some(o) => Run(b, o))
  {
    if |a| == 0 {
      assert a + b == b;
    } else {
      assert (a + b)[0] == a[0];
      assert (a + b)[1..] == a[1..] + b;
      match a[0]
      case StartTag(t) => RunAppend(a[1..], b, open + [t]);
      case EndTag(t) =>
        if |open| > 0 && open[|open| - 1] == t {
          RunAppend(a[1..], b, open[..|open| - 1]);
        }
      case _ => RunAppend(a[1..], b, open);
    }
  }

  /** Attribute pieces open and close nothing. */
  lemma {:induction false} AttributesNeutral(attrs: seq<Attribute>, open: seq<string>)
    ensures Run(AttributePieces(attrs), open) == Some(open)
  {
    if |attrs| > 0 {
      var ps := AttributePieces(attrs);
      assert ps[1..] == AttributePieces(attrs[1..]);
      AttributesNeutral(attrs[1..], open);
    }
  }

  /**
   * Every serialised value is balanced: its start and end tags pair up, well
   * nested, and leave the open tags around it as they were.
   */
  lemma {:induction false} Balanced(h: Html, open: seq<string>)
    ensures Run(ToHtml(h), open) == Some(open)
    decreases h, 1
  {
    match h
    case Element(t, attrs, ch) =>
      var inner := open + [t];
      var a := [StartTag(t)];
      var b := AttributePieces(attrs);
      var c := ChildrenPieces(ch);
      RunAppend(a + b + [StartEnd] + c, [EndTag(t)], open);
      RunAppend(a + b + [StartEnd], c, open);
      RunAppend(a + b, [StartEnd], open);
      RunAppend(a, b, open);
      assert Run(a, open) == Some(inner) by {
        assert a[1..] == [];
      }
      AttributesNeutral(attrs, inner);
      assert Run([StartEnd], inner) == Some(inner) by {
        assert [StartEnd][1..] == [];
      }
      ChildrenBalanced(ch, inner);
      assert inner[..|inner| - 1] == open;
      assert Run([EndTag(t)], inner) == Some(open) by {
        assert [EndTag(t)][1..] == [];
      }
    case Text(s) =>
      assert [Chunk(Escape(s))][1..] == [];
    case Items(xs) =>
      ChildrenBalanced(xs, open);
    case Other(s) =>
      assert [Chunk(s)][1..] == [];
  }

  lemma {:induction false} ChildrenBalanced(xs: seq<Html>, open: seq<string>)
    ensures Run(ChildrenPieces(xs), open) == Some(open)
    decreases xs, 0
  {
    if |xs| > 0 {
      Balanced(xs[0], open);
      ChildrenBalanced(xs[1..], open);
      RunAppend(ToHtml(xs[0]), ChildrenPieces(xs[1..]), open);
    }
  }

  /** `str(element)` is well nested from the empty stack. */
  lemma ElementWellNested(e: Html)
    requires e.Element?
    ensures Run(ToHtml(e), []) == Some([])
  {
    Balanced(e, []);
  }

  // ---------------------------------------------------------------------------
  // The writer
  // ---------------------------------------------------------------------------

  /** `HTMLWriter.__getattr__`: `_.div` is a constructor of `div` elements. */
  function Writer(attr: string): (make: (seq<Html>, seq<Attribute>) -> Html)
    ensures forall ch, attrs :: make(ch, attrs) == Element(attr, attrs, ch)
  {
    (ch, attrs) => Element(attr, attrs, ch)
  }

  /**
   * `str(_.t(*children, **attrs))` opens with `<t`, closes with `</t>`, and the
   * pieces it is built from nest from an empty stack.
   */
  lemma WriterElement(t: string, ch: seq<Html>, attrs: seq<Attribute>)
    ensures var e := Writer(t)(ch, attrs);
      && e.Element? && e.tag == t
      && |Str(e)| >= |t| + 1 + |t| + 3
      && Str(e)[..|t| + 1] == "<" + t
      && Str(e)[|Str(e)| - (|t| + 3)..] == "</" + t + ">"
      && Run(ToHtml(e), []) == Some([])
  {
    var e := Writer(t)(ch, attrs);
    ElementWellNested(e);
    var mid := RenderAll(AttributePieces(attrs)) + ">" + RenderAll(ChildrenPieces(ch));
    var open := "<" + t;
    var close := "</" + t + ">";
    assert Str(e) == open + mid + close;
    assert (open + mid + close)[..|open|] == open;
    assert (open + mid + close)[|open + mid + close| - |close|..] == close;
  }
}
