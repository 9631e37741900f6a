/** A document on its way from one program to another: printed, minified, parsed. */
module Documents {
  import opened Bytes
  import opened JsonText
  import opened Items
  import opened Trees
  import Printer
  import Minifier
  import Parser
  import RoundTrip
  import MinifiedMeaning
  import JsonGrammar

  /** The characters of a C string as a value. */
  method Load(a: array<byte>, ghost t: text) returns (s: text)
    requires Holds(a, 0, t)
    ensures s == t
  {
    var n := StrLen(a, 0, t);
    assert forall j :: 0 <= j < n ==> a[..n][j] == t[j];
    s := a[..n];
  }

  /** cJSON_Print or cJSON_PrintUnformatted, then cJSON_Minify, then cJSON_ParseWithOpts that insists on the NUL: a
      new tree with the value of the old one. */
  method Transmit(item: Item, fmt: bool, live: Live, ghost t: Shape, ghost src: set<Item>, ghost m: Image)
      returns (c: Item, live': Live, ghost d: Tree)
    requires t.node == item && src == All(t.kids) && Printer.Shown(t, src, m)
    ensures d.shape.node == c && fresh(c) && Whole(d) && JsonOf(ImageOf(d.shape)) == JsonOf(m)
    ensures fresh(d.cells) && live' == live + d.cells
  {
    ghost var v := JsonOf(m);
    var out := Printer.PrintValue(item, 0, fmt, t, src, m);
    Minifier.MinifyPrinted(v, fmt);
    var n := Minifier.MinifyInPlace(out, ValueText(v, 0, fmt));
    var s := Load(out, ValueText(v, 0, false));
    RoundTrip.DocumentRoundTrip(v, false, true);
    var root, end;
    root, end, live', d := Parser.ParseWithOpts(s, true, live);
    c := root;
  }

  /** cJSON_Minify on a received document and then the parser: the value is that of the document as it was. */
  method MinifyThenParse(json: array<byte>, live: Live, ghost s: text) returns (c: Item, live': Live, ghost d: Tree)
    requires Minifier.Loaded(json, s, 0) && Minifier.Minify(s).Kept? && JsonGrammar.ParseDocument(s, true).Ok?
    modifies json
    ensures d.shape.node == c && fresh(c) && Whole(d) && fresh(d.cells) && live' == live + d.cells
    ensures JsonOf(ImageOf(d.shape)) == JsonGrammar.ParseDocument(s, true).value
  {
    MinifiedMeaning.MinifyKeepsMeaning(s);
    var n := Minifier.MinifyInPlace(json, s);
    var t := Load(json, Minifier.Minify(s).t);
    var root, end;
    root, end, live', d := Parser.ParseWithOpts(t, true, live);
    c := root;
  }
}
