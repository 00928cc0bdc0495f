/**
  An already-parsed XML document in the shape of Python's `xml.etree.ElementTree`
  elements, and the subset of ElementPath lookups the record normaliser uses.
  Parsing text into a tree (`ET.fromstring`) is not part of this model.
*/
module ElementTree {
  import opened Wrappers
  import opened Filters

  /** An element: its tag, its attributes, its text (`None` when it has none) and its children. */
  datatype Elem = Elem(tag: string, attrs: map<string, string>, text: Option<string>, children: seq<Elem>)

  /** The three path shapes the harvester uses. */
  datatype Path =
    | Child(tag: string)                           // 'LastName'
    | Descendant(tag: string)                      // './/PMID'
    | DescendantChild(outer: string, inner: string) // './/Journal/Title'

  /** `e.iter(tag)`: `e` itself when tagged `tag`, then the matches below it, in preorder. */
  function Iter(e: Elem, tag: string): seq<Elem>
    decreases e, 1
  {
    (if e.tag == tag then [e] else []) + IterAll(e.children, tag)
  }

  /** The preorder matches inside each element of `es`, one element after another. */
  function IterAll(es: seq<Elem>, tag: string): seq<Elem>
    decreases es, 0
  {
    if es == [] then [] else Iter(es[0], tag) + IterAll(es[1..], tag)
  }

  /** The children of `es` tagged `tag`, in order. */
  function ChildrenTagged(es: seq<Elem>, tag: string): (r: seq<Elem>)
    ensures |r| <= |es|
    ensures forall x :: x in r ==> x in es && x.tag == tag
    ensures forall x :: x in es && x.tag == tag ==> x in r
  {
    if es == [] then []
    else (if es[0].tag == tag then [es[0]] else []) + ChildrenTagged(es[1..], tag)
  }

  /** For each element of `es` in turn, its children tagged `tag`. */
  function ChildrenOfEach(es: seq<Elem>, tag: string): seq<Elem> {
    if es == [] then [] else ChildrenTagged(es[0].children, tag) + ChildrenOfEach(es[1..], tag)
  }

  /** `e.findall(path)`, in the order ElementPath produces the matches. A descendant step
      never selects `e` itself. */
  function FindAll(e: Elem, path: Path): seq<Elem> {
    match path
    case Child(t) => ChildrenTagged(e.children, t)
    case Descendant(t) => IterAll(e.children, t)
    case DescendantChild(o, i) => ChildrenOfEach(IterAll(e.children, o), i)
  }

  /** The tag a path's matches carry. */
  function LastTag(path: Path): string {
    match path
    case Child(t) => t
    case Descendant(t) => t
    case DescendantChild(_, i) => i
  }

  /** `e.findtext(path)`: `None` when nothing matches, otherwise the first match's text,
      with `""` for a match that has no text. */
  function FindText(e: Elem, path: Path): Option<string> {
    var found := FindAll(e, path);
    if found == [] then None else Some(found[0].text.GetOr(""))
  }

  /** `e.findtext(path, default)`. */
  function FindTextOr(e: Elem, path: Path, default: string): string {
    FindText(e, path).GetOr(default)
  }

  /** Python truthiness of an optional string: present and non-empty. */
  predicate Truthy(s: Option<string>) {
    s.Some? && s.value != ""
  }

  // ------------------------------------------------------ independent reading

  /** The condition "carries tag `tag`". */
  function Tagged(tag: string): Elem -> bool {
    (x: Elem) => x.tag == tag
  }

  /** `e` and everything below it, in document order (preorder), whatever the tags. */
  function Preorder(e: Elem): seq<Elem>
    decreases e, 1
  {
    [e] + PreorderAll(e.children)
  }

  function PreorderAll(es: seq<Elem>): seq<Elem>
    decreases es, 0
  {
    if es == [] then [] else Preorder(es[0]) + PreorderAll(es[1..])
  }

  /** The elements strictly below `e`, in document order. */
  function Descendants(e: Elem): seq<Elem> {
    PreorderAll(e.children)
  }

  /** The children of each element of `es`, one element after another. */
  function AllChildren(es: seq<Elem>): seq<Elem> {
    if es == [] then [] else es[0].children + AllChildren(es[1..])
  }

  /** The elements a path's last step chooses among, in document order: `e`'s children
      for `X`, its descendants for `.//X`, and the children of its `A` descendants for
      `.//A/B`. */
  function Candidates(e: Elem, path: Path): seq<Elem> {
    match path
    case Child(_) => e.children
    case Descendant(_) => Descendants(e)
    case DescendantChild(o, _) => AllChildren(Filter(Descendants(e), Tagged(o)))
  }

  lemma {:induction false} ChildrenTaggedIsFilter(es: seq<Elem>, tag: string)
    ensures ChildrenTagged(es, tag) == Filter(es, Tagged(tag))
  {
    if es != [] {
      ChildrenTaggedIsFilter(es[1..], tag);
      FilterCons(es[0], es[1..], Tagged(tag));
      assert [es[0]] + es[1..] == es;
    }
  }

  lemma {:induction false} IterIsFilter(e: Elem, tag: string)
    ensures Iter(e, tag) == Filter(Preorder(e), Tagged(tag))
    decreases e, 1
  {
    IterAllIsFilter(e.children, tag);
    FilterCons(e, PreorderAll(e.children), Tagged(tag));
  }

  lemma {:induction false} IterAllIsFilter(es: seq<Elem>, tag: string)
    ensures IterAll(es, tag) == Filter(PreorderAll(es), Tagged(tag))
    decreases es, 0
  {
    if es != [] {
      IterIsFilter(es[0], tag);
      IterAllIsFilter(es[1..], tag);
      FilterAppend(Preorder(es[0]), PreorderAll(es[1..]), Tagged(tag));
    }
  }

  lemma {:induction false} ChildrenOfEachIsFilter(es: seq<Elem>, tag: string)
    ensures ChildrenOfEach(es, tag) == Filter(AllChildren(es), Tagged(tag))
  {
    if es != [] {
      ChildrenTaggedIsFilter(es[0].children, tag);
      ChildrenOfEachIsFilter(es[1..], tag);
      FilterAppend(es[0].children, AllChildren(es[1..]), Tagged(tag));
    }
  }

  /** `findall` keeps exactly the candidates that carry the path's last tag, in order. */
  lemma FindAllIsFilter(e: Elem, path: Path)
    ensures FindAll(e, path) == Filter(Candidates(e, path), Tagged(LastTag(path)))
  {
    match path
    case Child(t) => ChildrenTaggedIsFilter(e.children, t);
    case Descendant(t) => IterAllIsFilter(e.children, t);
    case DescendantChild(o, t) =>
      IterAllIsFilter(e.children, o);
      ChildrenOfEachIsFilter(IterAll(e.children, o), t);
  }

  /** `findall` in document order: its matches are the candidates at a strictly increasing
      list of positions, and a position is on that list exactly when the candidate there
      carries the path's last tag. So every such candidate is found, once, in order. */
  lemma FindAllInDocumentOrder(e: Elem, path: Path)
    ensures var cs, idx := Candidates(e, path), KeptIndices(Candidates(e, path), Tagged(LastTag(path)));
      |FindAll(e, path)| == |idx| && StrictlyIncreasing(idx) &&
      (forall i :: 0 <= i < |idx| ==> idx[i] < |cs| && FindAll(e, path)[i] == cs[idx[i]]) &&
      (forall j :: 0 <= j < |cs| ==> (j in idx <==> cs[j].tag == LastTag(path)))
  {
    FindAllIsFilter(e, path);
    FilterKeepsAcceptedInOrder(Candidates(e, path), Tagged(LastTag(path)));
  }

  /** `findtext`, read off the tree: `None` exactly when no candidate carries the last tag;
      otherwise the text of the first candidate that does, `""` when it has none. */
  lemma FindTextMeaning(e: Elem, path: Path)
    ensures var cs, t := Candidates(e, path), LastTag(path);
      (FindText(e, path).None? <==> forall j :: 0 <= j < |cs| ==> cs[j].tag != t) &&
      (FindText(e, path).Some? ==>
        exists k :: 0 <= k < |cs| && cs[k].tag == t && (forall j :: 0 <= j < k ==> cs[j].tag != t) &&
          FindText(e, path).value == cs[k].text.GetOr(""))
  {
    FindAllIsFilter(e, path);
    FilterFirst(Candidates(e, path), Tagged(LastTag(path)));
  }

  /** Document order across siblings: the matches in `a + b` are those in `a`, then those in `b`. */
  lemma {:induction false} IterAllAppend(a: seq<Elem>, b: seq<Elem>, tag: string)
    ensures IterAll(a + b, tag) == IterAll(a, tag) + IterAll(b, tag)
  {
    if a == [] {
      assert a + b == b;
    } else {
      assert (a + b)[1..] == a[1..] + b;
      IterAllAppend(a[1..], b, tag);
    }
  }
}
