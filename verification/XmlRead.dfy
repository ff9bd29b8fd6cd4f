/** The readers of src/libvirt_backend.c that treat XML as a plain string. */
module XmlRead {
  import opened Strings
  import opened Wrappers

  function OpenTag(tag: string): string {
    "<" + tag + ">"
  }

  function CloseTag(tag: string): string {
    "</" + tag + ">"
  }

  /** The text from `start` to the next `close`. */
  function Until(xml: string, start: nat, close: string): (r: Option<string>)
    requires start <= |xml|
    ensures r.Some? ==> start + |r.value| + |close| <= |xml| && xml[start..start + |r.value|] == r.value
                        && At(xml, start + |r.value|, close)
  {
    match Find(xml, close, start)
    case None => None
    case Some(end) => Some(xml[start..end])
  }

  /** What stands between the first `open` and the next `close`. */
  function Between(xml: string, open: string, close: string): Option<string> {
    match Find(xml, open, 0)
    case None => None
    case Some(i) => Until(xml, i + |open|, close)
  }

  /** extract_xml_content: what stands between the first <tag> and the next </tag>. */
  function Extract(xml: string, tag: string): Option<string> {
    Between(xml, OpenTag(tag), CloseTag(tag))
  }

  /** The content of the first `bare` element, else of the first element that starts with `tag`. */
  function ElementText(xml: string, bare: string, tag: string, close: string): Option<string> {
    match Between(xml, bare, close)
    case Some(text) => Some(text)
    case None =>
      match Find(xml, tag, 0)
      case None => None
      case Some(i) =>
        match Find(xml, ">", i)
        case None => None
        case Some(gt) => Until(xml, gt + 1, close)
  }

  /** extract_xml_content_ext: <tag> first, else the first <tag with attributes>. */
  function ExtractExt(xml: string, tag: string): Option<string> {
    ElementText(xml, OpenTag(tag), "<" + tag + " ", CloseTag(tag))
  }

  /** The quoted text after the first `attr1` behind the first `tag`, else after the first `attr2`. */
  function AttrText(xml: string, tag: string, attr1: string, attr2: string): Option<string> {
    match Find(xml, tag, 0)
    case None => None
    case Some(i) =>
      match Find(xml, attr1, i)
      case Some(a) => Until(xml, a + |attr1|, "'")
      case None =>
        match Find(xml, attr2, i)
        case Some(a) => Until(xml, a + |attr2|, "\"")
        case None => None
  }

  /** extract_xml_attr: the first attr='value' after <tag, else the first attr="value". */
  function ExtractAttr(xml: string, tag: string, attr: string): Option<string> {
    AttrText(xml, "<" + tag + " ", attr + "='", attr + "=\"")
  }

  lemma ElementTextIs(xml: string, bare: string, tag: string, close: string, i: nat, gt: nat, end: nat)
    requires !Occurs(xml, bare) && Find(xml, tag, 0) == Some(i) && Find(xml, ">", i) == Some(gt)
    requires gt < |xml| && Find(xml, close, gt + 1) == Some(end)
    ensures ElementText(xml, bare, tag, close) == Some(xml[gt + 1..end])
  {
  }

  lemma UntilChar(xml: string, v: nat, value: string, quote: string)
    requires |quote| == 1 && quote[0] !in value && At(xml, v, value + quote)
    ensures Until(xml, v, quote) == Some(value)
  {
    AtConcat(xml, v, value, quote);
    forall k: nat | v <= k < v + |value| ensures !At(xml, k, quote) {
      AtChar(xml, v, value, k - v);
      CharIf(xml, k, quote, 0);
    }
    FindIs(xml, quote, v, v + |value|);
  }

  lemma AttrTextIs(xml: string, tag: string, attr1: string, attr2: string, i: nat, a: nat, value: string)
    requires Find(xml, tag, 0) == Some(i) && Find(xml, attr1, i) == Some(a)
    requires At(xml, a, attr1 + (value + "'")) && '\'' !in value
    ensures AttrText(xml, tag, attr1, attr2) == Some(value)
  {
    AtConcat(xml, a, attr1, value + "'");
    hide Find, Until, At;
    UntilChar(xml, a + |attr1|, value, "'");
  }

  /** Without the single-quoted attribute behind the tag, the double-quoted one is read. */
  lemma AttrTextDouble(xml: string, tag: string, attr1: string, attr2: string, i: nat, a: nat, value: string)
    requires Find(xml, tag, 0) == Some(i) && Find(xml, attr1, i) == None && Find(xml, attr2, i) == Some(a)
    requires At(xml, a, attr2 + (value + "\"")) && '"' !in value
    ensures AttrText(xml, tag, attr1, attr2) == Some(value)
  {
    AtConcat(xml, a, attr2, value + "\"");
    hide Find, Until, At;
    UntilChar(xml, a + |attr2|, value, "\"");
  }

  /** extract_snapshot_parent_name. */
  function ParentName(xml: Option<string>): Option<string> {
    match xml
    case None => None
    case Some(text) =>
      match ExtractExt(text, "parent")
      case None => None
      case Some(inner) => Extract(inner, "name")
  }

  /** Without a bare <parent> the parent is the one with attributes. */
  lemma ParentWithAttributes(text: string, i: nat, gt: nat, end: nat)
    requires !Occurs(text, "<parent>") && Find(text, "<parent ", 0) == Some(i) && Find(text, ">", i) == Some(gt)
    requires gt < |text| && Find(text, "</parent>", gt + 1) == Some(end)
    ensures ParentName(Some(text)) == Extract(text[gt + 1..end], "name")
  {
    assert OpenTag("parent") == "<parent>" && CloseTag("parent") == "</parent>" && "<" + "parent" + " " == "<parent ";
    hide Find, Occurs, Extract, ElementText;
    ElementTextIs(text, "<parent>", "<parent ", "</parent>", i, gt, end);
  }
}
