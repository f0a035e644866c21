/**
 * The parsed document as ElementTree exposes it after namespace resolution:
 * every element has an expanded name (ElementTree's `{namespace-uri}local`
 * tag string, kept here as its two parts), the text before its first child
 * (absent when there is none) and its children in order.
 */
module XmlTree {
  import opened Wrappers

  /** An expanded element name: namespace URI and local name. */
  datatype QName = QName(uri: string, local: string)

  datatype Element = Element(tag: QName, text: Option<string>, children: seq<Element>)

  /** The first element of `cs` tagged `tag`, scanning in order, or `None`. */
  function FirstWithTag(cs: seq<Element>, tag: QName): Option<Element> {
    if cs == [] then None
    else if cs[0].tag == tag then Some(cs[0])
    else FirstWithTag(cs[1..], tag)
  }

  /** `e.find(tag)`: the first direct child of `e` tagged `tag`, or `None`. */
  function Find(e: Element, tag: QName): Option<Element> {
    FirstWithTag(e.children, tag)
  }

  /**
   * The scan comes back empty exactly when no element carries the tag, and
   * otherwise returns an element carrying it with none before it.
   */
  lemma {:induction false} FirstWithTagIsFirst(cs: seq<Element>, tag: QName)
    ensures FirstWithTag(cs, tag).None? <==> forall c :: c in cs ==> c.tag != tag
    ensures FirstWithTag(cs, tag).Some? ==>
      exists k :: 0 <= k < |cs| && cs[k] == FirstWithTag(cs, tag).value && cs[k].tag == tag &&
        forall j :: 0 <= j < k ==> cs[j].tag != tag
    decreases |cs|
  {
    if cs != [] && cs[0].tag != tag {
      FirstWithTagIsFirst(cs[1..], tag);
      assert forall c :: c in cs ==> c == cs[0] || c in cs[1..];
      if FirstWithTag(cs, tag).Some? {
        var k :| 0 <= k < |cs[1..]| && cs[1..][k] == FirstWithTag(cs, tag).value && cs[1..][k].tag == tag &&
          forall j :: 0 <= j < k ==> cs[1..][j].tag != tag;
        assert forall j :: 1 <= j < k + 1 ==> cs[j] == cs[1..][j - 1];
        assert cs[k + 1] == cs[1..][k];
      }
    } else if cs != [] {
      assert cs[0] == FirstWithTag(cs, tag).value;
    }
  }

  /** The elements of the forest `cs` and all their descendants, in document order. */
  function Preorder(cs: seq<Element>): seq<Element>
    decreases cs
  {
    if cs == [] then [] else [cs[0]] + Preorder(cs[0].children) + Preorder(cs[1..])
  }

  /** Document order of two adjacent forests is the order of the first followed by the second. */
  lemma {:induction false} PreorderAppend(a: seq<Element>, b: seq<Element>)
    ensures Preorder(a + b) == Preorder(a) + Preorder(b)
    decreases a
  {
    if a != [] {
      assert (a + b)[0] == a[0];
      assert (a + b)[1..] == a[1..] + b;
      PreorderAppend(a[1..], b);
    } else {
      assert a + b == b;
    }
  }

  /** The elements of `xs` tagged `tag`, in their order. */
  function WithTag(xs: seq<Element>, tag: QName): (r: seq<Element>)
    ensures |r| <= |xs|
    ensures forall x :: x in r <==> x in xs && x.tag == tag
  {
    if xs == [] then []
    else (if xs[0].tag == tag then [xs[0]] else []) + WithTag(xs[1..], tag)
  }

  /** Selecting by tag distributes over concatenation. */
  lemma {:induction false} WithTagAppend(a: seq<Element>, b: seq<Element>, tag: QName)
    ensures WithTag(a + b, tag) == WithTag(a, tag) + WithTag(b, tag)
    decreases |a|
  {
    if a == [] {
      assert a + b == b;
    } else {
      assert (a + b)[0] == a[0];
      assert (a + b)[1..] == a[1..] + b;
      WithTagAppend(a[1..], b, tag);
    }
  }

  /** `e.findall(".//" + tag)`: the elements strictly below `e` tagged `tag`, in document order. */
  function FindAll(e: Element, tag: QName): (r: seq<Element>)
    ensures forall x :: x in r <==> x in Preorder(e.children) && x.tag == tag
  {
    WithTag(Preorder(e.children), tag)
  }

  /** The matches below the first k children all come before those below the remaining children. */
  lemma FindAllSplitsAtChild(e: Element, tag: QName, k: nat)
    requires k <= |e.children|
    ensures FindAll(e, tag) == WithTag(Preorder(e.children[..k]), tag) + WithTag(Preorder(e.children[k..]), tag)
  {
    var front, back := e.children[..k], e.children[k..];
    assert e.children == front + back;
    PreorderAppend(front, back);
    WithTagAppend(Preorder(front), Preorder(back), tag);
  }
}
