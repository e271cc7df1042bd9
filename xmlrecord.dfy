/** The parts of a parsed FGDC record the script uses: the children of the
    document root, and the `smusrtxt` label/value elements found anywhere
    below it, in document order. The XML parser and serializer themselves are
    not modelled. */
module XmlRecord {
  import opened Wrappers
  import opened Naming

  /** A child element of the document root: its tag, and the rest of its
      subtree kept as opaque text. */
  datatype Element = Element(tag: string, subtree: string)

  /** A child element looked up with `find`: missing, present without text
      (ElementTree gives `None`), or present with text. */
  datatype Child = Absent | NoText | Text(text: string)

  /** One `smusrtxt` element: its `smusrlbl` and `smusrval` children. */
  datatype UsrTxt = UsrTxt(smusrlbl: Child, smusrval: Child)

  datatype Record = Record(children: seq<Element>, usrTxts: seq<UsrTxt>)

  /** Position of the first root child tagged `smusrdef`, which is what
      `find("smusrdef")` on the document returns. */
  function UserDefIndex(children: seq<Element>): (r: Option<nat>)
    ensures r.None? <==> forall i :: 0 <= i < |children| ==> children[i].tag != UserDefTag
    ensures r.Some? ==> r.value < |children| && children[r.value].tag == UserDefTag
    ensures r.Some? ==> forall i :: 0 <= i < r.value ==> children[i].tag != UserDefTag
  {
    if children == [] then None
    else if children[0].tag == UserDefTag then Some(0)
    else
      match UserDefIndex(children[1..])
      case None => None
      case Some(i) => Some(i + 1)
  }

  /** The root's children after `root.remove(...)` of the user-defined section;
      `None` when there is no such child (the removal then raises). */
  function Strip(children: seq<Element>): (r: Option<seq<Element>>)
    ensures r.None? <==> forall i :: 0 <= i < |children| ==> children[i].tag != UserDefTag
    ensures r.Some? ==> |r.value| + 1 == |children|
    ensures r.Some? ==> multiset(r.value) + multiset{children[UserDefIndex(children).value]} == multiset(children)
  {
    match UserDefIndex(children)
    case None => None
    case Some(k) =>
      assert children == children[..k] + [children[k]] + children[k + 1..];
      Some(children[..k] + children[k + 1..])
  }

  /** Put an element back at a position. */
  function Reinsert(children: seq<Element>, k: nat, e: Element): seq<Element>
    requires k <= |children|
  {
    children[..k] + [e] + children[k..]
  }

  /** Stripping keeps every other child in its order, and re-inserting the
      removed section where it was gives back the original children. */
  lemma StripRoundTrip(children: seq<Element>)
    requires Strip(children).Some?
    ensures UserDefIndex(children).Some?
    ensures var k := UserDefIndex(children).value;
      var kept := Strip(children).value;
      && (forall i :: 0 <= i < k ==> kept[i] == children[i])
      && (forall i :: k <= i < |kept| ==> kept[i] == children[i + 1])
      && Reinsert(kept, k, children[k]) == children
  {
    var k := UserDefIndex(children).value;
    var kept := Strip(children).value;
    var before, after := children[..k], children[k + 1..];
    assert kept == before + after;
    assert |before| == k;
    assert kept[..k] == before;
    assert kept[k..] == after;
    assert children == before + [children[k]] + after;
  }
}
