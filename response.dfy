/**
 * parse_flex_response: reading the SendRequest acknowledgement. The XML parser
 * itself is not modelled; its output is the root Element, or None for a parse error.
 */
module FlexResponse {
  import opened Wrappers
  import opened FlexErrors

  /** An XML element as ElementTree exposes it; text is None for an element without text. */
  datatype Element = Element(tag: string, text: Option<string>, children: seq<Element>)

  /** What the acknowledgement says. */
  datatype Ack =
    | Accepted(code: string)          // the reference code to fetch with
    | Rejected(status: Option<string>) // the final Status, when it is not "Success"
    | NoRefCode                       // "Success" but no or empty ReferenceCode
    | Malformed                       // the body did not parse

  /** The texts of the direct children with this tag, in document order. */
  function TextsOf(children: seq<Element>, tag: string): (ts: seq<Option<string>>)
    ensures |ts| <= |children|
  {
    if children == [] then []
    else (if children[0].tag == tag then [children[0].text] else []) + TextsOf(children[1..], tag)
  }

  /** The text of the final occurrence of a tag; None when the tag does not occur. */
  function FinalText(children: seq<Element>, tag: string): Option<string> {
    var ts := TextsOf(children, tag);
    if ts == [] then None else ts[|ts| - 1]
  }

  /**
   * The value the scan loop holds for a tag after the children seen so far: it
   * starts as None and each child with that tag overwrites it with its text.
   */
  function Scanned(children: seq<Element>, tag: string): Option<string> {
    if children == [] then None
    else if children[|children| - 1].tag == tag then children[|children| - 1].text
    else Scanned(children[..|children| - 1], tag)
  }

  /** The final status and reference code, in the order parse_flex_response tests them. */
  function Classify(status: Option<string>, referenceCode: Option<string>): Ack {
    if status != Some("Success") then Rejected(status)
    else if referenceCode.None? || referenceCode.value == "" then NoRefCode
    else Accepted(referenceCode.value)
  }

  /**
   * The acknowledgement a parsed document carries. The status is tested first,
   * so a non-"Success" status wins over a missing code; only "Success" with a
   * non-empty code is accepted, and then with that exact code.
   */
  function Decode(doc: Option<Element>): (r: Ack)
    ensures r == Malformed <==> doc.None?
    ensures doc.Some? ==>
      var status := FinalText(doc.value.children, "Status");
      var code := FinalText(doc.value.children, "ReferenceCode");
      && (r.Rejected? <==> status != Some("Success"))
      && (r.Rejected? ==> r.status == status)
      && (r == NoRefCode <==> status == Some("Success") && (code.None? || code.value == ""))
      && (r.Accepted? <==> status == Some("Success") && code.Some? && code.value != "")
      && (r.Accepted? ==> code == Some(r.code))
  {
    match doc
    case None => Malformed
    case Some(root) =>
      ScannedIsFinal(root.children, "Status");
      ScannedIsFinal(root.children, "ReferenceCode");
      Classify(Scanned(root.children, "Status"), Scanned(root.children, "ReferenceCode"))
  }

  /** The error send_flex_request raises for each acknowledgement, or the code it returns. */
  function AckResult(ack: Ack): (r: Result<string, FlexError>)
    ensures r.Success? <==> ack.Accepted?
    ensures ack.Accepted? ==> r.value == ack.code
    ensures ack.Rejected? ==> r.error == RequestRejected(ack.status)
    ensures ack == NoRefCode ==> r.error == NoReferenceCode
    ensures ack == Malformed ==> r.error == InvalidXml
  {
    match ack
    case Accepted(code) => Success(code)
    case Rejected(status) => Failure(RequestRejected(status))
    case NoRefCode => Failure(NoReferenceCode)
    case Malformed => Failure(InvalidXml)
  }

  /**
   * parse_flex_response: a loop over the root's direct children that keeps the
   * latest Status and ReferenceCode text and ignores every other tag.
   */
  method ParseFlexResponse(doc: Option<Element>) returns (r: Ack)
    ensures r == Decode(doc)
  {
    if doc.None? {
      return Malformed;
    }
    var children := doc.value.children;
    var status: Option<string> := None;
    var referenceCode: Option<string> := None;
    var i := 0;
    while i < |children|
      invariant 0 <= i <= |children|
      invariant status == Scanned(children[..i], "Status")
      invariant referenceCode == Scanned(children[..i], "ReferenceCode")
    {
      var child := children[i];
      assert children[..i + 1][..i] == children[..i];
      if child.tag == "Status" {
        status := child.text;
      } else if child.tag == "ReferenceCode" {
        referenceCode := child.text;
      }
      i := i + 1;
    }
    assert children[..i] == children;
    if status != Some("Success") {
      return Rejected(status);
    }
    if referenceCode.None? || referenceCode.value == "" {
      return NoRefCode;
    }
    return Accepted(referenceCode.value);
  }

  // ----------------------------------------------------------- properties

  lemma {:induction false} TextsOfAppend(a: seq<Element>, b: seq<Element>, tag: string)
    ensures TextsOf(a + b, tag) == TextsOf(a, tag) + TextsOf(b, tag)
  {
    if a == [] {
      assert a + b == b;
    } else {
      var ab := a + b;
      assert ab[0] == a[0];
      assert ab[1..] == a[1..] + b;
      var head := if a[0].tag == tag then [a[0].text] else [];
      TextsOfAppend(a[1..], b, tag);
      calc {
        TextsOf(ab, tag);
        head + TextsOf(ab[1..], tag);
        head + (TextsOf(a[1..], tag) + TextsOf(b, tag));
        (head + TextsOf(a[1..], tag)) + TextsOf(b, tag);
      }
    }
  }

  /** The loop's value for a tag is the text of its last occurrence: the last one wins. */
  lemma {:induction false} ScannedIsFinal(children: seq<Element>, tag: string)
    ensures Scanned(children, tag) == FinalText(children, tag)
  {
    if children != [] {
      var n := |children| - 1;
      var front := children[..n];
      assert children == front + [children[n]];
      TextsOfAppend(front, [children[n]], tag);
      assert TextsOf([children[n]], tag) == if children[n].tag == tag then [children[n].text] else [];
      ScannedIsFinal(front, tag);
    }
  }

  /**
   * The acknowledgement depends only on the sequence of Status texts and the
   * sequence of ReferenceCode texts among the direct children: not on the root's
   * tag, not on other tags, not on grandchildren, not on how Status and
   * ReferenceCode elements interleave.
   */
  lemma DecodeDependsOnlyOnFieldTexts(a: Element, b: Element)
    requires TextsOf(a.children, "Status") == TextsOf(b.children, "Status")
    requires TextsOf(a.children, "ReferenceCode") == TextsOf(b.children, "ReferenceCode")
    ensures Decode(Some(a)) == Decode(Some(b))
  {
  }

  /** The texts of a three-part sequence of children are the texts of its parts, in order. */
  lemma TextsOfSplit(pre: seq<Element>, mid: seq<Element>, post: seq<Element>, tag: string)
    ensures TextsOf(pre + mid + post, tag) == TextsOf(pre, tag) + TextsOf(mid, tag) + TextsOf(post, tag)
  {
    TextsOfAppend(pre + mid, post, tag);
    TextsOfAppend(pre, mid, tag);
  }

  lemma TextsOfDistinctPair(x: Element, y: Element, tag: string)
    requires x.tag != y.tag
    ensures TextsOf([x, y], tag) == TextsOf([y, x], tag)
  {
  }

  /** Swapping two neighbouring children with different tags leaves the acknowledgement unchanged. */
  lemma SwapNeighboursKeepsAck(root: Element, i: nat)
    requires i + 1 < |root.children| && root.children[i].tag != root.children[i + 1].tag
    ensures var cs := root.children;
            Decode(Some(root.(children := cs[..i] + [cs[i + 1], cs[i]] + cs[i + 2..]))) == Decode(Some(root))
  {
    var cs := root.children;
    var pre, post := cs[..i], cs[i + 2..];
    assert cs == pre + [cs[i], cs[i + 1]] + post;
    TextsOfSplit(pre, [cs[i], cs[i + 1]], post, "Status");
    TextsOfSplit(pre, [cs[i + 1], cs[i]], post, "Status");
    TextsOfSplit(pre, [cs[i], cs[i + 1]], post, "ReferenceCode");
    TextsOfSplit(pre, [cs[i + 1], cs[i]], post, "ReferenceCode");
    TextsOfDistinctPair(cs[i], cs[i + 1], "Status");
    TextsOfDistinctPair(cs[i], cs[i + 1], "ReferenceCode");
    DecodeDependsOnlyOnFieldTexts(root.(children := pre + [cs[i + 1], cs[i]] + post), root);
  }

  /** A child with any other tag, inserted anywhere, is ignored. */
  lemma UnknownChildIgnored(root: Element, i: nat, e: Element)
    requires i <= |root.children| && e.tag != "Status" && e.tag != "ReferenceCode"
    ensures var cs := root.children;
            Decode(Some(root.(children := cs[..i] + [e] + cs[i..]))) == Decode(Some(root))
  {
    var cs := root.children;
    assert cs == cs[..i] + cs[i..];
    TextsOfSplit(cs[..i], [e], cs[i..], "Status");
    TextsOfSplit(cs[..i], [e], cs[i..], "ReferenceCode");
    TextsOfAppend(cs[..i], cs[i..], "Status");
    TextsOfAppend(cs[..i], cs[i..], "ReferenceCode");
    DecodeDependsOnlyOnFieldTexts(root.(children := cs[..i] + [e] + cs[i..]), root);
  }

  /** Only direct children are read: what a child contains below itself is ignored. */
  lemma GrandchildrenIgnored(root: Element, i: nat, nested: seq<Element>)
    requires i < |root.children|
    ensures var cs := root.children;
            Decode(Some(root.(children := cs[i := cs[i].(children := nested)]))) == Decode(Some(root))
  {
    var cs := root.children;
    var cs' := cs[i := cs[i].(children := nested)];
    assert cs == cs[..i] + [cs[i]] + cs[i + 1..];
    assert cs' == cs[..i] + [cs'[i]] + cs[i + 1..];
    TextsOfSplit(cs[..i], [cs'[i]], cs[i + 1..], "Status");
    TextsOfSplit(cs[..i], [cs[i]], cs[i + 1..], "Status");
    TextsOfSplit(cs[..i], [cs'[i]], cs[i + 1..], "ReferenceCode");
    TextsOfSplit(cs[..i], [cs[i]], cs[i + 1..], "ReferenceCode");
    DecodeDependsOnlyOnFieldTexts(root.(children := cs'), root);
  }

  /** A Status appended after everything else decides the status, whatever came before. */
  lemma LastStatusWins(root: Element, text: Option<string>, nested: seq<Element>)
    ensures var r := Decode(Some(root.(children := root.children + [Element("Status", text, nested)])));
            text != Some("Success") ==> r == Rejected(text)
  {
  }

  /** The root's tag is never looked at. */
  lemma RootTagIgnored(root: Element, tag: string)
    ensures Decode(Some(root.(tag := tag))) == Decode(Some(root))
  {
  }
}
