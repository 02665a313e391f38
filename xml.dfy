/**
 * The element tree the XML parser produces, and the path helpers the storage client uses to
 * read it: `find_subnodes`, `traverse`, `traverse_single_must`, `traverse_single_optional`,
 * `inner_text`, `cast_must` and `cast_optional`.
 */
module Xml {
  import opened Wrappers
  import opened Errors

  datatype Element = Element(name: string, children: seq<Node>)

  /** One child of an element (the parser's `Xml` enumeration). */
  datatype Node =
    | ElementNode(element: Element)
    | CharacterNode(text: string)
    | CDATANode(data: string)
    | CommentNode(comment: string)
    | PINode(instruction: string)

  /** True of a node that is an element named `name`. */
  predicate IsElementNamed(x: Node, name: string) {
    x.ElementNode? && x.element.name == name
  }

  /** The child elements of `node` named `name`, in document order. */
  function FindSubnodes(node: Element, name: string): (found: seq<Element>)
    ensures forall e :: e in found ==> e.name == name && ElementNode(e) in node.children
    ensures forall i :: 0 <= i < |node.children| && IsElementNamed(node.children[i], name) ==> node.children[i].element in found
    ensures found == [] <==> forall i :: 0 <= i < |node.children| ==> !IsElementNamed(node.children[i], name)
  {
    ElementsNamed(node.children, name)
  }

  function ElementsNamed(nodes: seq<Node>, name: string): (found: seq<Element>)
    ensures forall e :: e in found ==> e.name == name && ElementNode(e) in nodes
    ensures forall i :: 0 <= i < |nodes| && IsElementNamed(nodes[i], name) ==> nodes[i].element in found
    ensures found == [] <==> forall i :: 0 <= i < |nodes| ==> !IsElementNamed(nodes[i], name)
  {
    if nodes == [] then []
    else
      var rest := ElementsNamed(nodes[1..], name);
      assert forall i :: 0 < i < |nodes| ==> nodes[i] == nodes[1..][i - 1];
      if IsElementNamed(nodes[0], name) then [nodes[0].element] + rest else rest
  }

  /** Looking through one more node in front looks at it first. */
  lemma ElementsNamedCons(x: Node, rest: seq<Node>, name: string)
    ensures ElementsNamed([x] + rest, name)
            == (if IsElementNamed(x, name) then [x.element] else []) + ElementsNamed(rest, name)
  {
    assert ([x] + rest)[1..] == rest;
  }

  /**
   * The search distributes over concatenation: with `ElementsNamedCons`, this fixes the
   * result as one element per matching node, in document order.
   */
  lemma {:induction false} ElementsNamedConcat(a: seq<Node>, b: seq<Node>, name: string)
    ensures ElementsNamed(a + b, name) == ElementsNamed(a, name) + ElementsNamed(b, name)
  {
    if a == [] {
      assert a + b == b;
    } else {
      assert (a + b)[0] == a[0] && (a + b)[1..] == a[1..] + b;
      ElementsNamedConcat(a[1..], b, name);
    }
  }

  /**
   * Follows `path` from `node`. Every step but the last must find exactly one element; the
   * last step returns all elements found, and finding none there is allowed only when
   * `ignoreEmptyLeaf` holds.
   */
  function Traverse(node: Element, path: seq<string>, ignoreEmptyLeaf: bool): (r: Result<seq<Element>>)
    ensures path == [] ==> r == Ok([node])
    ensures r.Ok? && path != [] ==> forall e :: e in r.value ==> e.name == path[|path| - 1]
    ensures r.Ok? && r.value == [] ==> ignoreEmptyLeaf && path != []
    ensures r.Err? ==> exists k :: 0 <= k < |path| && r.error in {Traversing(PathNotFound(path[k])), Traversing(MultipleNode(path[k]))}
    ensures path != [] && FindSubnodes(node, path[0]) == [] && (|path| > 1 || !ignoreEmptyLeaf)
            ==> r == Err(Traversing(PathNotFound(path[0])))
    ensures |path| > 1 && |FindSubnodes(node, path[0])| > 1 ==> r == Err(Traversing(MultipleNode(path[0])))
    decreases |path|
  {
    if path == [] then Ok([node])
    else
      var found := FindSubnodes(node, path[0]);
      if found == [] then
        if |path| == 1 && ignoreEmptyLeaf then Ok([]) else Err(Traversing(PathNotFound(path[0])))
      else if |path| == 1 then Ok(found)
      else if |found| > 1 then Err(Traversing(MultipleNode(path[0])))
      else
        var r := Traverse(found[0], path[1..], ignoreEmptyLeaf);
        assert r.Err? ==> exists k :: 0 <= k < |path| && r.error in {Traversing(PathNotFound(path[k])), Traversing(MultipleNode(path[k]))} by {
          if r.Err? {
            var k :| 0 <= k < |path[1..]| && r.error in {Traversing(PathNotFound(path[1..][k])), Traversing(MultipleNode(path[1..][k]))};
            assert path[1..][k] == path[k + 1];
          }
        }
        r
  }

  /** The one element at `path`; absent or repeated is an error. */
  function TraverseSingleMust(node: Element, path: seq<string>): (r: Result<Element>)
    ensures r.Ok? <==> Traverse(node, path, false).Ok? && |Traverse(node, path, false).value| == 1
    ensures r.Ok? ==> Traverse(node, path, false).value == [r.value]
    ensures Traverse(node, path, false).Err? ==> r == Err(Traverse(node, path, false).error)
    ensures Traverse(node, path, false).Ok? && |Traverse(node, path, false).value| > 1
            ==> path != [] && r == Err(Traversing(MultipleNode(path[|path| - 1])))
  {
    var found :- Traverse(node, path, false);
    if |found| > 1 then Err(Traversing(MultipleNode(path[|path| - 1]))) else Ok(found[0])
  }

  /** The element at `path` if there is one; repeated is an error. */
  function TraverseSingleOptional(node: Element, path: seq<string>): (r: Result<Option<Element>>)
    ensures r.Ok? <==> Traverse(node, path, true).Ok? && |Traverse(node, path, true).value| <= 1
    ensures r.Ok? ==> (r.value.None? <==> Traverse(node, path, true).value == [])
    ensures r.Ok? && r.value.Some? ==> Traverse(node, path, true).value == [r.value.value]
    ensures Traverse(node, path, true).Err? ==> r == Err(Traverse(node, path, true).error)
    ensures Traverse(node, path, true).Ok? && |Traverse(node, path, true).value| > 1
            ==> path != [] && r == Err(Traversing(MultipleNode(path[|path| - 1])))
  {
    var found :- Traverse(node, path, true);
    if |found| > 1 then Err(Traversing(MultipleNode(path[|path| - 1])))
    else if found == [] then Ok(None)
    else Ok(Some(found[0]))
  }

  /** The text of the first character child of `node`; none is an error. */
  function InnerText(node: Element): (r: Result<string>)
    ensures r.Ok? <==> exists i :: 0 <= i < |node.children| && node.children[i].CharacterNode?
    ensures r.Err? ==> r.error == Traversing(TextNotFound)
    ensures r.Ok? ==> exists i :: 0 <= i < |node.children| && node.children[i] == CharacterNode(r.value)
                                  && forall j :: 0 <= j < i ==> !node.children[j].CharacterNode?
  {
    FirstText(node.children)
  }

  function FirstText(nodes: seq<Node>): (r: Result<string>)
    ensures r.Ok? <==> exists i :: 0 <= i < |nodes| && nodes[i].CharacterNode?
    ensures r.Err? ==> r.error == Traversing(TextNotFound)
    ensures r.Ok? ==> exists i :: 0 <= i < |nodes| && nodes[i] == CharacterNode(r.value)
                                  && forall j :: 0 <= j < i ==> !nodes[j].CharacterNode?
  {
    if nodes == [] then Err(Traversing(TextNotFound))
    else if nodes[0].CharacterNode? then Ok(nodes[0].text)
    else
      var r := FirstText(nodes[1..]);
      assert forall i :: 0 < i < |nodes| ==> nodes[i] == nodes[1..][i - 1];
      assert r.Ok? ==> exists i :: 0 <= i < |nodes| && nodes[i] == CharacterNode(r.value)
                                   && forall j :: 0 <= j < i ==> !nodes[j].CharacterNode? by {
        if r.Ok? {
          var i :| 0 <= i < |nodes[1..]| && nodes[1..][i] == CharacterNode(r.value)
                   && forall j :: 0 <= j < i ==> !nodes[1..][j].CharacterNode?;
          assert nodes[i + 1] == CharacterNode(r.value);
        }
      }
      r
  }

  /**
   * Reads the text at `path` and converts it; every failure is an error: the path's, a
   * missing text, or the text that does not convert.
   */
  function CastMust<T>(node: Element, path: seq<string>, convert: string -> Option<T>): (r: Result<T>)
    ensures TraverseSingleMust(node, path).Err? ==> r == Err(TraverseSingleMust(node, path).error)
    ensures TraverseSingleMust(node, path).Ok? && InnerText(TraverseSingleMust(node, path).value).Err?
            ==> r == Err(Traversing(TextNotFound))
    ensures r.Ok? ==> TraverseSingleMust(node, path).Ok? && InnerText(TraverseSingleMust(node, path).value).Ok?
                      && convert(InnerText(TraverseSingleMust(node, path).value).value) == Some(r.value)
    ensures r.Err? && TraverseSingleMust(node, path).Ok? && InnerText(TraverseSingleMust(node, path).value).Ok?
            ==> r == Err(Traversing(ParsingError(InnerText(TraverseSingleMust(node, path).value).value)))
    ensures TraverseSingleMust(node, path).Ok? && InnerText(TraverseSingleMust(node, path).value).Ok?
            && convert(InnerText(TraverseSingleMust(node, path).value).value).Some?
            ==> r == Ok(convert(InnerText(TraverseSingleMust(node, path).value).value).value)
  {
    var leaf :- TraverseSingleMust(node, path);
    var text :- InnerText(leaf);
    match convert(text)
    case None => Err(Traversing(ParsingError(text)))
    case Some(v) => Ok(v)
  }

  /**
   * Reads the text at `path` if the element is there and has text, and converts it; an absent
   * element or one without text reads as `None`.
   */
  function CastOptional<T>(node: Element, path: seq<string>, convert: string -> Option<T>): (r: Result<Option<T>>)
    ensures TraverseSingleOptional(node, path).Err? ==> r == Err(TraverseSingleOptional(node, path).error)
    ensures Traverse(node, path, true) == Ok([]) ==> r == Ok(None)
    ensures TraverseSingleOptional(node, path).Ok? && TraverseSingleOptional(node, path).value.Some?
            && InnerText(TraverseSingleOptional(node, path).value.value).Err?
            ==> r == Ok(None)
    ensures r.Ok? && r.value.Some?
            ==> TraverseSingleOptional(node, path).Ok? && TraverseSingleOptional(node, path).value.Some?
                && InnerText(TraverseSingleOptional(node, path).value.value).Ok?
                && convert(InnerText(TraverseSingleOptional(node, path).value.value).value) == Some(r.value.value)
    ensures TraverseSingleOptional(node, path).Ok? && TraverseSingleOptional(node, path).value.Some?
            && InnerText(TraverseSingleOptional(node, path).value.value).Ok?
            ==> var text := InnerText(TraverseSingleOptional(node, path).value.value).value;
                r == if convert(text).Some? then Ok(Some(convert(text).value)) else Err(Traversing(ParsingError(text)))
  {
    var leaf :- TraverseSingleOptional(node, path);
    match leaf
    case None => Ok(None)
    case Some(e) =>
      match InnerText(e)
      case Err(_) => Ok(None)
      case Ok(text) =>
        match convert(text)
        case None => Err(Traversing(ParsingError(text)))
        case Some(v) => Ok(Some(v))
  }

  /** A path through a single element continues inside it. */
  lemma TraverseDescend(node: Element, child: Element, path: seq<string>, ignoreEmptyLeaf: bool)
    requires |path| >= 2 && FindSubnodes(node, path[0]) == [child]
    ensures Traverse(node, path, ignoreEmptyLeaf) == Traverse(child, path[1..], ignoreEmptyLeaf)
  {
  }

  /** The single element at `path` whose only child is `text` converts that text. */
  lemma CastMustLeaf<T>(node: Element, path: seq<string>, convert: string -> Option<T>, leaf: Element, text: string)
    requires Traverse(node, path, false) == Ok([leaf])
    requires leaf.children == [CharacterNode(text)]
    ensures CastMust(node, path, convert)
            == if convert(text).Some? then Ok(convert(text).value) else Err(Traversing(ParsingError(text)))
  {
    assert FirstText(leaf.children) == Ok(text);
  }

  /**
   * A mandatory element missing under the single `parent` element is reported by name: the
   * element-not-found error of `cast_must`.
   */
  lemma CastMustAbsent<T>(node: Element, parentName: string, parent: Element, name: string, convert: string -> Option<T>)
    requires FindSubnodes(node, parentName) == [parent]
    requires FindSubnodes(parent, name) == []
    ensures CastMust(node, [parentName, name], convert) == Err(Traversing(PathNotFound(name)))
  {
    TraverseDescend(node, parent, [parentName, name], false);
    assert [parentName, name][1..] == [name];
  }

  /** A one-step path finds every child element of that name; none is an error only when the leaf may be empty. */
  lemma TraverseOneStep(node: Element, name: string)
    ensures Traverse(node, [name], true) == Ok(FindSubnodes(node, name))
    ensures FindSubnodes(node, name) != [] ==> Traverse(node, [name], false) == Ok(FindSubnodes(node, name))
  {
  }

  /** A two-step path through the single `first` child is a one-step path inside it. */
  lemma TraverseThroughSingle(node: Element, first: string, child: Element, second: string)
    requires FindSubnodes(node, first) == [child]
    ensures Traverse(node, [first, second], true) == Ok(FindSubnodes(child, second))
  {
    assert [first, second][1..] == [second];
    TraverseOneStep(child, second);
  }

  /** An element holding only `text`. */
  function TextElement(name: string, text: string): (e: Element)
    ensures e.name == name && e.children == [CharacterNode(text)]
  {
    Element(name, [CharacterNode(text)])
  }

  /** The nodes holding `elems`, in order. */
  function ElementNodes(elems: seq<Element>): (nodes: seq<Node>)
    ensures |nodes| == |elems|
    ensures forall i :: 0 <= i < |elems| ==> nodes[i] == ElementNode(elems[i])
  {
    if elems == [] then [] else [ElementNode(elems[0])] + ElementNodes(elems[1..])
  }

  /** A name none of `elems` carries is not found among them. */
  lemma AbsentAmong(elems: seq<Element>, name: string)
    requires forall i :: 0 <= i < |elems| ==> elems[i].name != name
    ensures ElementsNamed(ElementNodes(elems), name) == []
  {
  }

  /** Among elements with distinct names, each is found once, under its own name. */
  lemma {:induction false} FindAmongDistinct(elems: seq<Element>, k: nat)
    requires k < |elems|
    requires forall i, j :: 0 <= i < j < |elems| ==> elems[i].name != elems[j].name
    ensures ElementsNamed(ElementNodes(elems), elems[k].name) == [elems[k]]
  {
    assert ElementNodes(elems) == [ElementNode(elems[0])] + ElementNodes(elems[1..]);
    ElementsNamedCons(ElementNode(elems[0]), ElementNodes(elems[1..]), elems[k].name);
    var rest := elems[1..];
    if k == 0 {
      forall i | 0 <= i < |rest| ensures rest[i].name != elems[0].name {
        assert rest[i] == elems[i + 1];
      }
      AbsentAmong(rest, elems[0].name);
    } else {
      assert elems[0].name != elems[k].name;
      forall i, j | 0 <= i < j < |rest| ensures rest[i].name != rest[j].name {
        assert rest[i] == elems[i + 1] && rest[j] == elems[j + 1];
      }
      assert rest[k - 1] == elems[k];
      FindAmongDistinct(rest, k - 1);
    }
  }

}
