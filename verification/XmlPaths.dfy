/**
 An XML tree and the child paths by which it is read and rewritten. Reading the nodes of a path and
 writing nodes back at the same places obey the laws of a lens, for every path whose predicates look
 outside the part that is rewritten.
 */
module XmlPaths {
  import opened Wrappers
  import opened Sequences

  datatype Namespace = Mdb | Mri | Cit | Gco | Mrd | Foreign(uri: string)

  datatype Name = Name(space: Namespace, local: string)

  datatype Element = Element(tag: Name, attributes: map<string, string>, text: Option<string>,
                             children: seq<Element>, tail: string)

  /**
   One step of a path: a child by name, by local name, by a choice of names, or
   `name[child/grandchild/@attribute='value']`.
   */
  datatype Test =
    | Tag(name: Name)
    | LocalName(local: string)
    | OneOf(names: seq<Name>)
    | Having(name: Name, child: Name, grandchild: Name, attribute: string, value: string)
  {
    predicate Matches(e: Element) {
      match this
      case Tag(n) => e.tag == n
      case LocalName(l) => e.tag.local == l
      case OneOf(ns) => e.tag in ns
      case Having(n, _, _, _, _) => e.tag == n && exists c | c in e.children :: IsWitness(c)
    }

    predicate IsWitness(c: Element)
      requires Having?
    {
      c.tag == child && exists g | g in c.children ::
        g.tag == grandchild && attribute in g.attributes && g.attributes[attribute] == value
    }
  }

  type Path = seq<Test>

  /** The nodes of a path, in document order. */
  function Select(e: Element, path: Path): seq<Element>
    decreases |path|, 1, 0
  {
    if path == [] then [e] else SelectAmong(e.children, path)
  }

  function SelectAmong(elements: seq<Element>, path: Path): seq<Element>
    requires path != []
    decreases |path|, 0, |elements|
  {
    if elements == [] then []
    else
      (if path[0].Matches(elements[0]) then Select(elements[0], path[1..]) else []) + SelectAmong(elements[1..], path)
  }

  /** The tree with the nodes of a path replaced, one for one. */
  function PutAll(e: Element, path: Path, nodes: seq<Element>): Element
    requires |nodes| == |Select(e, path)|
    decreases |path|, 1, 0
  {
    if path == [] then nodes[0] else e.(children := PutAmong(e.children, path, nodes))
  }

  function PutAmong(elements: seq<Element>, path: Path, nodes: seq<Element>): seq<Element>
    requires path != []
    requires |nodes| == |SelectAmong(elements, path)|
    decreases |path|, 0, |elements|
  {
    if elements == [] then []
    else if path[0].Matches(elements[0]) then
      var n := |Select(elements[0], path[1..])|;
      [PutAll(elements[0], path[1..], nodes[..n])] + PutAmong(elements[1..], path, nodes[n..])
    else
      [elements[0]] + PutAmong(elements[1..], path, nodes)
  }

  /** The tree with the k-th node of a path replaced. */
  function Put(e: Element, path: Path, k: nat, node: Element): Element
    requires k < |Select(e, path)|
  {
    PutAll(e, path, Select(e, path)[k := node])
  }

  /** A predicate on a step looks at children that the rest of the path does not go through. */
  predicate Sound(path: Path) {
    path == [] || (Sound(path[1..])
                   && (path[0].Having? ==> |path| > 1 && path[1].Tag? && path[1].name != path[0].child))
  }

  /** Nodes that the last step of the path still selects. */
  predicate Fit(path: Path, nodes: seq<Element>) {
    path == [] || forall v | v in nodes :: path[|path| - 1].Matches(v)
  }

  lemma FitParts(path: Path, nodes: seq<Element>, n: nat)
    requires Fit(path, nodes) && n <= |nodes|
    ensures Fit(path, nodes[..n]) && Fit(path, nodes[n..])
  {
    if path != [] {
      forall v | v in nodes[..n] || v in nodes[n..]
        ensures path[|path| - 1].Matches(v)
      {
        assert v in nodes;
      }
    }
  }

  /** The nodes of a path pass its last step. */
  lemma {:induction false} SelectedFit(e: Element, path: Path)
    ensures Fit(path, Select(e, path))
    decreases |path|, 1, 0
  {
    if path != [] {
      SelectedFitAmong(e.children, path);
    }
  }

  lemma {:induction false} SelectedFitAmong(elements: seq<Element>, path: Path)
    requires path != []
    ensures Fit(path, SelectAmong(elements, path))
    decreases |path|, 0, |elements|
  {
    if elements != [] {
      SelectedFitAmong(elements[1..], path);
      if path[0].Matches(elements[0]) {
        SelectedFit(elements[0], path[1..]);
      }
    }
  }

  lemma FitUpdated(path: Path, nodes: seq<Element>, k: nat, node: Element)
    requires path != [] && Fit(path, nodes) && k < |nodes| && path[|path| - 1].Matches(node)
    ensures Fit(path, nodes[k := node])
  {
    var updated := nodes[k := node];
    forall i | 0 <= i < |updated|
      ensures path[|path| - 1].Matches(updated[i])
    {
      assert i != k ==> updated[i] == nodes[i] && nodes[i] in nodes;
    }
  }

  lemma {:induction false} PlainIsSound(path: Path)
    requires forall t | t in path :: !t.Having?
    ensures Sound(path)
  {
    if path != [] {
      assert path[0] in path;
      PlainIsSound(path[1..]);
    }
  }

  lemma {:induction false} OthersStay(elements: seq<Element>, path: Path, nodes: seq<Element>, other: Element)
    requires path != [] && |nodes| == |SelectAmong(elements, path)|
    requires other in elements && !path[0].Matches(other)
    ensures other in PutAmong(elements, path, nodes)
  {
    if elements[0] != other {
      var n := if path[0].Matches(elements[0]) then |Select(elements[0], path[1..])| else 0;
      OthersStay(elements[1..], path, nodes[n..], other);
    }
  }

  /** A rewritten child is still selected by the step that led to it. */
  lemma StepStillMatches(e: Element, path: Path, nodes: seq<Element>)
    requires path != [] && Sound(path) && path[0].Matches(e)
    requires |nodes| == |Select(e, path[1..])| && Fit(path, nodes)
    ensures path[0].Matches(PutAll(e, path[1..], nodes))
  {
    if |path| == 1 {
      assert nodes[0] in nodes;
    } else if path[0].Having? {
      var c :| c in e.children && path[0].IsWitness(c);
      assert path[1..][0] == path[1];
      OthersStay(e.children, path[1..], nodes, c);
    }
  }

  /** What was written is what is read. */
  lemma {:induction false} PutGet(e: Element, path: Path, nodes: seq<Element>)
    requires Sound(path) && |nodes| == |Select(e, path)| && Fit(path, nodes)
    ensures Select(PutAll(e, path, nodes), path) == nodes
    decreases |path|, 1, 0
  {
    if path == [] {
      assert nodes == [nodes[0]];
    } else {
      PutGetAmong(e.children, path, nodes);
    }
  }

  lemma {:induction false} PutGetAmong(elements: seq<Element>, path: Path, nodes: seq<Element>)
    requires path != [] && Sound(path) && |nodes| == |SelectAmong(elements, path)| && Fit(path, nodes)
    ensures SelectAmong(PutAmong(elements, path, nodes), path) == nodes
    decreases |path|, 0, |elements|
  {
    if elements != [] {
      if path[0].Matches(elements[0]) {
        var n := |Select(elements[0], path[1..])|;
        FitParts(path, nodes, n);
        StepStillMatches(elements[0], path, nodes[..n]);
        PutGet(elements[0], path[1..], nodes[..n]);
        PutGetAmong(elements[1..], path, nodes[n..]);
        var first := PutAll(elements[0], path[1..], nodes[..n]);
        var rest := PutAmong(elements[1..], path, nodes[n..]);
        assert ([first] + rest)[1..] == rest;
        assert nodes == nodes[..n] + nodes[n..];
      } else {
        PutGetAmong(elements[1..], path, nodes);
        assert ([elements[0]] + PutAmong(elements[1..], path, nodes))[1..] == PutAmong(elements[1..], path, nodes);
      }
    }
  }

  /** Writing back what was read changes nothing. */
  lemma {:induction false} GetPut(e: Element, path: Path)
    ensures PutAll(e, path, Select(e, path)) == e
    decreases |path|, 1, 0
  {
    if path != [] {
      GetPutAmong(e.children, path);
    }
  }

  lemma {:induction false} GetPutAmong(elements: seq<Element>, path: Path)
    requires path != []
    ensures PutAmong(elements, path, SelectAmong(elements, path)) == elements
    decreases |path|, 0, |elements|
  {
    if elements != [] {
      var nodes := SelectAmong(elements, path);
      GetPutAmong(elements[1..], path);
      if path[0].Matches(elements[0]) {
        var n := |Select(elements[0], path[1..])|;
        GetPut(elements[0], path[1..]);
        assert nodes[..n] == Select(elements[0], path[1..]);
        assert nodes[n..] == SelectAmong(elements[1..], path);
      } else {
        assert nodes == SelectAmong(elements[1..], path);
      }
    }
  }

  /** The last write wins. */
  lemma {:induction false} PutPut(e: Element, path: Path, nodes: seq<Element>, later: seq<Element>)
    requires Sound(path) && |nodes| == |Select(e, path)| == |later| && Fit(path, nodes)
    ensures |Select(PutAll(e, path, nodes), path)| == |later|
    ensures PutAll(PutAll(e, path, nodes), path, later) == PutAll(e, path, later)
    decreases |path|, 1, 0
  {
    PutGet(e, path, nodes);
    if path != [] {
      PutPutAmong(e.children, path, nodes, later);
    }
  }

  lemma {:induction false} PutPutAmong(elements: seq<Element>, path: Path, nodes: seq<Element>, later: seq<Element>)
    requires path != [] && Sound(path) && |nodes| == |SelectAmong(elements, path)| == |later| && Fit(path, nodes)
    ensures |SelectAmong(PutAmong(elements, path, nodes), path)| == |later|
    ensures PutAmong(PutAmong(elements, path, nodes), path, later) == PutAmong(elements, path, later)
    decreases |path|, 0, |elements|
  {
    PutGetAmong(elements, path, nodes);
    if elements != [] {
      var written := PutAmong(elements, path, nodes);
      if path[0].Matches(elements[0]) {
        var n := |Select(elements[0], path[1..])|;
        FitParts(path, nodes, n);
        StepStillMatches(elements[0], path, nodes[..n]);
        PutGet(elements[0], path[1..], nodes[..n]);
        PutPut(elements[0], path[1..], nodes[..n], later[..n]);
        PutPutAmong(elements[1..], path, nodes[n..], later[n..]);
        assert written[1..] == PutAmong(elements[1..], path, nodes[n..]);
      } else {
        PutPutAmong(elements[1..], path, nodes, later);
        assert written[1..] == PutAmong(elements[1..], path, nodes);
      }
    }
  }

  /** Replacing one more node of a tree whose nodes were already rewritten. */
  lemma PutNext(e: Element, path: Path, nodes: seq<Element>, k: nat, node: Element)
    requires Sound(path) && |nodes| == |Select(e, path)| && Fit(path, nodes) && k < |nodes|
    ensures Select(PutAll(e, path, nodes), path) == nodes
    ensures Put(PutAll(e, path, nodes), path, k, node) == PutAll(e, path, nodes[k := node])
  {
    PutGet(e, path, nodes);
    PutPut(e, path, nodes, nodes[k := node]);
  }

  lemma {:induction false} PutKeepsCount(elements: seq<Element>, path: Path, nodes: seq<Element>)
    requires path != [] && |nodes| == |SelectAmong(elements, path)|
    ensures |PutAmong(elements, path, nodes)| == |elements|
    decreases elements
  {
    if elements != [] {
      var n := if path[0].Matches(elements[0]) then |Select(elements[0], path[1..])| else 0;
      assert nodes[0..] == nodes;
      PutKeepsCount(elements[1..], path, nodes[n..]);
    }
  }

  /** Replacing the k-th node, reading it back, and replacing it again. */
  lemma PutOne(e: Element, path: Path, k: nat, node: Element, later: Element)
    requires path != [] && Sound(path) && k < |Select(e, path)| && path[|path| - 1].Matches(node)
    ensures Select(Put(e, path, k, node), path) == Select(e, path)[k := node]
    ensures Put(Put(e, path, k, node), path, k, later) == Put(e, path, k, later)
  {
    var nodes := Select(e, path);
    SelectedFit(e, path);
    FitUpdated(path, nodes, k, node);
    PutNext(e, path, nodes[k := node], k, later);
    assert nodes[k := node][k := later] == nodes[k := later];
  }

  /** The two first steps never select the same child, whatever its content. */
  ghost predicate Apart(path: Path, other: Path) {
    && |path| > 1 && other != [] && (path[0].Tag? || path[0].LocalName?) && (other[0].Tag? || other[0].LocalName?)
    && forall e: Element :: path[0].Matches(e) ==> !other[0].Matches(e)
  }

  /** Writing along one path leaves the nodes of a path apart from it. */
  lemma PutElsewhere(e: Element, path: Path, nodes: seq<Element>, other: Path)
    requires Apart(path, other) && |nodes| == |Select(e, path)|
    ensures Select(PutAll(e, path, nodes), other) == Select(e, other)
  {
    PutElsewhereAmong(e.children, path, nodes, other);
  }

  lemma {:induction false} PutElsewhereAmong(elements: seq<Element>, path: Path, nodes: seq<Element>, other: Path)
    requires Apart(path, other) && |nodes| == |SelectAmong(elements, path)|
    ensures SelectAmong(PutAmong(elements, path, nodes), other) == SelectAmong(elements, other)
    decreases elements
  {
    if elements != [] {
      var n := if path[0].Matches(elements[0]) then |Select(elements[0], path[1..])| else 0;
      PutElsewhereAmong(elements[1..], path, nodes[n..], other);
      var written := PutAmong(elements, path, nodes);
      assert nodes[0..] == nodes;
      assert written[1..] == PutAmong(elements[1..], path, nodes[n..]);
      if path[0].Matches(elements[0]) {
        var rewritten := PutAll(elements[0], path[1..], nodes[..n]);
        assert rewritten.tag == elements[0].tag;
        assert !other[0].Matches(elements[0]) && !other[0].Matches(rewritten);
      }
    }
  }

  /** Writes along paths apart from each other can be done in either order. */
  lemma PutsCommute(e: Element, path: Path, nodes: seq<Element>, other: Path, others: seq<Element>)
    requires Apart(path, other) && Apart(other, path)
    requires |nodes| == |Select(e, path)| && |others| == |Select(e, other)|
    ensures |Select(PutAll(e, path, nodes), other)| == |others| && |Select(PutAll(e, other, others), path)| == |nodes|
    ensures PutAll(PutAll(e, path, nodes), other, others) == PutAll(PutAll(e, other, others), path, nodes)
  {
    PutsCommuteAmong(e.children, path, nodes, other, others);
  }

  lemma {:induction false} PutsCommuteAmong(
    elements: seq<Element>, path: Path, nodes: seq<Element>, other: Path, others: seq<Element>)
    requires Apart(path, other) && Apart(other, path)
    requires |nodes| == |SelectAmong(elements, path)| && |others| == |SelectAmong(elements, other)|
    ensures |SelectAmong(PutAmong(elements, path, nodes), other)| == |others|
    ensures |SelectAmong(PutAmong(elements, other, others), path)| == |nodes|
    ensures PutAmong(PutAmong(elements, path, nodes), other, others)
      == PutAmong(PutAmong(elements, other, others), path, nodes)
    decreases elements
  {
    PutElsewhereAmong(elements, path, nodes, other);
    PutElsewhereAmong(elements, other, others, path);
    if elements != [] {
      var first, rest := elements[0], elements[1..];
      HeadAndTail(elements);
      if path[0].Matches(first) {
        var n := |Select(first, path[1..])|;
        PutsCommuteAmong(rest, path, nodes[n..], other, others);
        PutsCommuteFirst(first, rest, path, nodes, other, others);
      } else if other[0].Matches(first) {
        var n := |Select(first, other[1..])|;
        PutsCommuteAmong(rest, path, nodes, other, others[n..]);
        PutsCommuteFirst(first, rest, other, others, path, nodes);
      } else {
        PutsCommuteAmong(rest, path, nodes, other, others);
        PutSkip(first, rest, path, nodes);
        PutSkip(first, rest, other, others);
        PutSkip(first, PutAmong(rest, path, nodes), other, others);
        PutSkip(first, PutAmong(rest, other, others), path, nodes);
      }
    }
  }

  lemma PutSkip(first: Element, rest: seq<Element>, path: Path, nodes: seq<Element>)
    requires path != [] && !path[0].Matches(first) && |nodes| == |SelectAmong(rest, path)|
    ensures |SelectAmong([first] + rest, path)| == |nodes|
    ensures PutAmong([first] + rest, path, nodes) == [first] + PutAmong(rest, path, nodes)
  {
    TailOf(first, rest);
  }

  lemma PutTake(first: Element, rest: seq<Element>, path: Path, nodes: seq<Element>)
    requires path != [] && path[0].Matches(first)
    requires |nodes| == |Select(first, path[1..])| + |SelectAmong(rest, path)|
    ensures |SelectAmong([first] + rest, path)| == |nodes|
    ensures
      var n := |Select(first, path[1..])|;
      PutAmong([first] + rest, path, nodes) == [PutAll(first, path[1..], nodes[..n])] + PutAmong(rest, path, nodes[n..])
  {
    TailOf(first, rest);
  }

  /** Both writes when the first child is on the first of the two paths. */
  lemma PutsCommuteFirst(
    first: Element, rest: seq<Element>, path: Path, nodes: seq<Element>, other: Path, others: seq<Element>)
    requires Apart(path, other) && path[0].Matches(first)
    requires |nodes| == |Select(first, path[1..])| + |SelectAmong(rest, path)| && |others| == |SelectAmong(rest, other)|
    requires
      var n := |Select(first, path[1..])|;
      && |SelectAmong(PutAmong(rest, path, nodes[n..]), other)| == |others|
      && |SelectAmong(PutAmong(rest, other, others), path)| == |nodes| - n
      && PutAmong(PutAmong(rest, path, nodes[n..]), other, others)
        == PutAmong(PutAmong(rest, other, others), path, nodes[n..])
    ensures |SelectAmong([first] + rest, path)| == |nodes| && |SelectAmong([first] + rest, other)| == |others|
    ensures |SelectAmong(PutAmong([first] + rest, path, nodes), other)| == |others|
    ensures |SelectAmong(PutAmong([first] + rest, other, others), path)| == |nodes|
    ensures
      PutAmong(PutAmong([first] + rest, path, nodes), other, others)
      == PutAmong(PutAmong([first] + rest, other, others), path, nodes)
  {
    var n := |Select(first, path[1..])|;
    var written := PutAll(first, path[1..], nodes[..n]);
    assert written.tag == first.tag && !other[0].Matches(first) && !other[0].Matches(written);
    PutTake(first, rest, path, nodes);
    PutSkip(written, PutAmong(rest, path, nodes[n..]), other, others);
    PutSkip(first, rest, other, others);
    PutTake(first, PutAmong(rest, other, others), path, nodes);
  }

  /** The nodes of a path below each of some elements. */
  function SelectEach(elements: seq<Element>, path: Path): seq<Element> {
    if elements == [] then [] else Select(elements[0], path) + SelectEach(elements[1..], path)
  }

  lemma {:induction false} SelectEachConcat(a: seq<Element>, b: seq<Element>, path: Path)
    ensures SelectEach(a + b, path) == SelectEach(a, path) + SelectEach(b, path)
  {
    if a == [] {
      assert a + b == b;
    } else {
      FirstOff(a, b);
      SelectEachConcat(a[1..], b, path);
      Associates(Select(a[0], path), SelectEach(a[1..], path), SelectEach(b, path));
    }
  }

  /** A longer path selects below the nodes of its beginning. */
  lemma {:induction false} SelectThrough(e: Element, path: Path, more: Path)
    ensures Select(e, path + more) == SelectEach(Select(e, path), more)
    decreases |path|, 1, 0
  {
    if path == [] {
      assert path + more == more;
      assert [e][1..] == [];
    } else {
      SelectThroughAmong(e.children, path, more);
    }
  }

  lemma {:induction false} SelectThroughAmong(elements: seq<Element>, path: Path, more: Path)
    requires path != []
    ensures SelectAmong(elements, path + more) == SelectEach(SelectAmong(elements, path), more)
    decreases |path|, 0, |elements|
  {
    if elements != [] {
      FirstOff(path, more);
      SelectThroughAmong(elements[1..], path, more);
      if path[0].Matches(elements[0]) {
        SelectThrough(elements[0], path[1..], more);
        SelectEachConcat(Select(elements[0], path[1..]), SelectAmong(elements[1..], path), more);
      } else {
        SelectEachConcat([], SelectAmong(elements[1..], path), more);
      }
    }
  }

  /** A first child that the path does not go through. */
  lemma SkipFirst(first: Element, rest: seq<Element>, path: Path)
    requires path != [] && !path[0].Matches(first)
    ensures SelectAmong([first] + rest, path) == SelectAmong(rest, path)
    ensures rest == [] ==> SelectAmong([first], path) == []
  {
    assert ([first] + rest)[1..] == rest;
    assert rest == [] ==> [first] + rest == [first];
  }

  /** A first child that the path goes through. */
  lemma TakeFirst(first: Element, rest: seq<Element>, path: Path)
    requires path != [] && path[0].Matches(first)
    ensures SelectAmong([first] + rest, path) == Select(first, path[1..]) + SelectAmong(rest, path)
    ensures rest == [] ==> SelectAmong([first], path) == Select(first, path[1..])
  {
    assert ([first] + rest)[1..] == rest;
    assert rest == [] ==> [first] + rest == [first];
  }

  /** Writing the only node of a path, which is below the first child. */
  lemma PutFirst(first: Element, rest: seq<Element>, path: Path, node: Element)
    requires path != [] && path[0].Matches(first) && |Select(first, path[1..])| == 1
    requires rest != [] ==> SelectAmong(rest, path) == []
    ensures |SelectAmong([first] + rest, path)| == 1
    ensures PutAmong([first] + rest, path, [node]) == [PutAll(first, path[1..], [node])] + rest
    ensures rest == [] ==>
      |SelectAmong([first], path)| == 1 && PutAmong([first], path, [node]) == [PutAll(first, path[1..], [node])]
  {
    assert ([first] + rest)[1..] == rest;
    assert rest == [] ==> [first] + rest == [first];
    assert [node][..1] == [node] && [node][1..] == [];
    GetPutAmong(rest, path);
  }

  /** Nodes of appended children come last. */
  lemma {:induction false} SelectAppended(elements: seq<Element>, path: Path, more: seq<Element>)
    requires path != []
    ensures SelectAmong(elements + more, path) == SelectAmong(elements, path) + SelectAmong(more, path)
  {
    if elements == [] {
      assert elements + more == more;
    } else {
      FirstOff(elements, more);
      SelectAppended(elements[1..], path, more);
      Associates(if path[0].Matches(elements[0]) then Select(elements[0], path[1..]) else [],
                 SelectAmong(elements[1..], path), SelectAmong(more, path));
    }
  }

  lemma NoNodesHere(first: Element, rest: seq<Element>, path: Path, nodes: seq<Element>)
    requires path != [] && (path[0].Matches(first) ==> Select(first, path[1..]) == [])
    requires |nodes| == |SelectAmong(rest, path)|
    ensures |SelectAmong([first] + rest, path)| == |nodes|
    ensures PutAmong([first] + rest, path, nodes) == [first] + PutAmong(rest, path, nodes)
  {
    TailOf(first, rest);
    if path[0].Matches(first) {
      GetPut(first, path[1..]);
      assert nodes[..0] == [] && nodes[0..] == nodes;
    }
  }

  /** Writing only below appended children leaves the others as they are. */
  lemma {:induction false} PutAppended(elements: seq<Element>, path: Path, more: seq<Element>, nodes: seq<Element>)
    requires path != [] && SelectAmong(elements, path) == [] && |nodes| == |SelectAmong(more, path)|
    ensures |SelectAmong(elements + more, path)| == |nodes|
    ensures PutAmong(elements + more, path, nodes) == elements + PutAmong(more, path, nodes)
  {
    if elements == [] {
      assert elements + more == more && elements + PutAmong(more, path, nodes) == PutAmong(more, path, nodes);
    } else {
      PutAppended(elements[1..], path, more, nodes);
      NoNodesHere(elements[0], elements[1..] + more, path, nodes);
      HeadAndTail(elements);
      Associates([elements[0]], elements[1..], more);
      Associates([elements[0]], elements[1..], PutAmong(more, path, nodes));
    }
  }

  /** The text nodes directly inside an element: its own text, then what follows each child. */
  function Texts(e: Element): seq<string> {
    (if e.text.Some? then [e.text.value] else []) + Tails(e.children)
  }

  function Tails(elements: seq<Element>): seq<string> {
    if elements == [] then [] else (if elements[0].tail != "" then [elements[0].tail] else []) + Tails(elements[1..])
  }

  function TextsOf(elements: seq<Element>): seq<string> {
    if elements == [] then [] else Texts(elements[0]) + TextsOf(elements[1..])
  }

  /** The text nodes of an element are its text, and the texts that are not empty behind its children. */
  lemma {:induction false} TailsExactly(elements: seq<Element>)
    ensures forall text :: text in Tails(elements) <==>
      text != "" && exists i | 0 <= i < |elements| :: elements[i].tail == text
  {
    if elements != [] {
      var rest := elements[1..];
      TailsExactly(rest);
      forall text
        ensures text in Tails(elements) <==> text != "" && exists i | 0 <= i < |elements| :: elements[i].tail == text
      {
        if i :| 0 <= i < |elements| && elements[i].tail == text {
          if i > 0 { assert rest[i - 1].tail == text; }
        }
        if i :| 0 <= i < |rest| && rest[i].tail == text {
          assert elements[i + 1].tail == text;
        }
      }
    }
  }
}
