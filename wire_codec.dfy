/**
 * The wire codec of Helper.ts. Before a request, `addInformationAboutPrimitiveDataTypes`
 * turns each SubTree into a payload whose data are plain strings tagged with
 * their class name. `transformToSubTree` rebuilds a SubTree from such a
 * payload, re-deriving every child's path.
 *
 * Trees are values here: `cloneDeep` and the in-place filling of fresh
 * nodes become building new values.
 */
module WireCodec {
  import opened Outcomes
  import opened Text
  import opened Primitives

  /** The node record a SubTree carries. */
  datatype SubTree = SubTree(
    absolutePath: string,
    lastPathElement: string,
    addedPaths: seq<string>,
    data: Option<Primitive>,
    children: seq<SubTree>)

  /** `ISubTreeWithTypes`: a node whose data travel as a string and a class name. */
  datatype Payload = Payload(
    absolutePath: string,
    lastPathElement: string,
    addedPaths: seq<string>,
    data: Option<string>,
    dataType: Option<string>,
    children: seq<Payload>)

  /** `new SubTree(path, undefined)`: the last `.` segment names the node; nothing else is set. */
  function NewSubTree(path: string): (r: SubTree)
    ensures r.absolutePath == path && r.lastPathElement == LastSegment(path, '.')
    ensures r.addedPaths == [] && r.data.None? && r.children == []
  {
    SubTree(path, LastSegment(path, '.'), [], None, [])
  }

  /**
   * A fresh node's name is a single path element: it holds no `.`, it is the
   * whole path when the path has no `.`, and otherwise what follows the last one.
   */
  lemma NewSubTreeName(path: string, prefix: string, name: string)
    ensures '.' !in NewSubTree(path).lastPathElement
    ensures '.' !in path ==> NewSubTree(path).lastPathElement == path
    ensures path == prefix + "." + name && '.' !in name ==> NewSubTree(path).lastPathElement == name
  {
    LastSegmentAvoidsSeparator(path, '.');
    if path == prefix + "." + name && '.' !in name {
      LastSegmentOfAppend(prefix, name, '.');
    }
  }

  /**
   * The path of a child. A child whose last element, cut at the first `[`,
   * repeats its parent's last element (an element of a repeated field) is
   * placed beside the parent rather than below it.
   */
  function ChildPath(parentPath: string, parentLast: string, childLast: string): (r: string)
    ensures BeforeFirst(childLast, '[') == parentLast ==> r == DropLastSegment(parentPath) + "." + childLast
    ensures BeforeFirst(childLast, '[') != parentLast ==> r == parentPath + "." + childLast
  {
    if parentLast == BeforeFirst(childLast, '[') then DropLastSegment(parentPath) + "." + childLast
    else parentPath + "." + childLast
  }

  // ------------------------------------------------------ transformToSubTree

  /**
   * The data of one payload node: nothing when the string is absent or
   * empty, otherwise the `parseFromString` of the class named by the tag.
   * Any failure, including an unknown tag, is re-raised wrapped.
   */
  function DecodeData(w: Payload): (r: Result<Option<Primitive>>)
    ensures !Truthy(w.data) ==> r == Ok(None)
    ensures r.Err? ==> r.error.TransformFailed?
    ensures (Truthy(w.data) && (w.dataType.None? || ClassByName(w.dataType.value).None?))
              ==> r == Err(TransformFailed(UnknownDataType))
    ensures r.Ok? && r.value.Some? ==> Some(GetName(r.value.value)) == w.dataType && Valid(r.value.value)
    ensures Truthy(w.data) && w.dataType.Some? && ClassByName(w.dataType.value).Some? ==>
              var parsed := ParseFromString(ClassByName(w.dataType.value).value, w.data);
              && (parsed.Ok? ==> r == parsed)
              && (parsed.Err? ==> r == Err(TransformFailed(parsed.error)))
  {
    if !Truthy(w.data) then Ok(None)
    else if w.dataType.None? then Err(TransformFailed(UnknownDataType))
    else match ClassByName(w.dataType.value)
      case None => Err(TransformFailed(UnknownDataType))
      case Some(k) =>
        match ParseFromString(k, w.data)
        case Ok(d) => Ok(d)
        case Err(e) => Err(TransformFailed(e))
  }

  /** How the data of one payload node are decoded; `transformToSubTree` uses `DecodeData`. */
  type Decoder = Payload -> Result<Option<Primitive>>

  /**
   * `transformRecursive(w, new SubTree(path, undefined))`: the node at
   * `path` with `w`'s added paths and decoded data, and the children built
   * in order; the first failure, in document order, is the result.
   */
  function Transform(decode: Decoder, w: Payload, path: string): (r: Result<SubTree>)
    ensures decode(w).Err? ==> r == Err(decode(w).error)
    ensures r.Ok? ==> r.value.absolutePath == path && r.value.data == decode(w).value
    decreases w, |w.children| + 1
  {
    match decode(w)
    case Err(e) => Err(e)
    case Ok(d) =>
      match TransformChildren(decode, w, 0)
      case Err(e) => Err(e)
      case Ok(cs) => Ok(NewSubTree(path).(addedPaths := w.addedPaths, data := d, children := cs))
  }

  /** The children of `parent` from index `i` on. */
  function TransformChildren(decode: Decoder, parent: Payload, i: nat): (r: Result<seq<SubTree>>)
    requires i <= |parent.children|
    ensures r.Ok? ==> |r.value| == |parent.children| - i
    decreases parent, |parent.children| - i
  {
    if i == |parent.children| then Ok([])
    else
      var c := parent.children[i];
      match Transform(decode, c, ChildPath(parent.absolutePath, parent.lastPathElement, c.lastPathElement))
      case Err(e) => Err(e)
      case Ok(t) =>
        match TransformChildren(decode, parent, i + 1)
        case Err(e) => Err(e)
        case Ok(ts) => Ok([t] + ts)
  }

  /** `r` with `done` put in front of its trees. */
  function Prefixed(done: seq<SubTree>, r: Result<seq<SubTree>>): Result<seq<SubTree>>
  {
    match r
    case Ok(ts) => Ok(done + ts)
    case Err(e) => Err(e)
  }

  /** Every node of the payload decodes. */
  predicate AllDecode(decode: Decoder, w: Payload)
    decreases w
  {
    decode(w).Ok? && forall c | c in w.children :: AllDecode(decode, c)
  }

  /** `transformToSubTree(obj)`: the tree rooted at the payload's own path. */
  method TransformToSubTree(w: Payload) returns (r: Result<SubTree>)
    ensures r == Transform(DecodeData, w, w.absolutePath)
  {
    r := TransformRecursive(DecodeData, w, w.absolutePath);
  }

  /** `transformRecursive`, walking the children with a loop. */
  method TransformRecursive(decode: Decoder, w: Payload, path: string) returns (r: Result<SubTree>)
    ensures r == Transform(decode, w, path)
    decreases w
  {
    var d := decode(w);
    if d.Err? {
      return Err(d.error);
    }
    var node := NewSubTree(path).(addedPaths := w.addedPaths, data := d.value);
    var i := 0;
    assert Prefixed([], TransformChildren(decode, w, 0)) == TransformChildren(decode, w, 0) by {
      if TransformChildren(decode, w, 0).Ok? {
        assert [] + TransformChildren(decode, w, 0).value == TransformChildren(decode, w, 0).value;
      }
    }
    while i < |w.children|
      invariant 0 <= i <= |w.children|
      invariant TransformChildren(decode, w, 0) == Prefixed(node.children, TransformChildren(decode, w, i))
      invariant node == NewSubTree(path).(addedPaths := w.addedPaths, data := d.value, children := node.children)
    {
      var c := w.children[i];
      var child := TransformRecursive(decode, c, ChildPath(w.absolutePath, w.lastPathElement, c.lastPathElement));
      if child.Err? {
        return Err(child.error);
      }
      assert TransformChildren(decode, w, i) == Prefixed([child.value], TransformChildren(decode, w, i + 1));
      if TransformChildren(decode, w, i + 1).Ok? {
        var rest := TransformChildren(decode, w, i + 1).value;
        assert node.children + ([child.value] + rest) == (node.children + [child.value]) + rest;
      }
      node := node.(children := node.children + [child.value]);
      i := i + 1;
    }
    assert node.children + [] == node.children;
    assert TransformChildren(decode, w, 0) == Ok(node.children);
    return Ok(node);
  }

  /** The rebuilt tree has the path asked for, the payload's added paths and one child per payload child. */
  lemma {:induction false} TransformShape(decode: Decoder, w: Payload, path: string)
    requires Transform(decode, w, path).Ok?
    ensures var t := Transform(decode, w, path).value;
      && t.absolutePath == path
      && t.lastPathElement == LastSegment(path, '.')
      && t.addedPaths == w.addedPaths
      && |t.children| == |w.children|
      && forall i :: 0 <= i < |w.children| ==>
           t.children[i].absolutePath == ChildPath(w.absolutePath, w.lastPathElement, w.children[i].lastPathElement)
  {
    TransformNode(decode, w, path);
    ChildrenShape(decode, w, 0);
  }

  /** The rebuilt node: a fresh node with the payload's added paths, its decoded data and the rebuilt children. */
  lemma TransformNode(decode: Decoder, w: Payload, path: string)
    requires Transform(decode, w, path).Ok?
    ensures TransformChildren(decode, w, 0).Ok?
    ensures Transform(decode, w, path).value
         == NewSubTree(path).(addedPaths := w.addedPaths, data := decode(w).value, children := TransformChildren(decode, w, 0).value)
  {
  }

  lemma {:induction false} ChildrenShape(decode: Decoder, parent: Payload, i: nat)
    requires i <= |parent.children|
    requires TransformChildren(decode, parent, i).Ok?
    ensures var ts := TransformChildren(decode, parent, i).value;
      && |ts| == |parent.children| - i
      && forall j :: i <= j < |parent.children| ==>
           ts[j - i].absolutePath == ChildPath(parent.absolutePath, parent.lastPathElement, parent.children[j].lastPathElement)
    decreases |parent.children| - i
  {
    if i < |parent.children| {
      ChildrenShape(decode, parent, i + 1);
    }
  }

  /** All or nothing: the tree is rebuilt exactly when every node decodes. */
  lemma {:induction false} TransformAllOrNothing(decode: Decoder, w: Payload, path: string)
    ensures Transform(decode, w, path).Ok? <==> AllDecode(decode, w)
    decreases w, |w.children| + 1
  {
    ChildrenAllOrNothing(decode, w, 0);
  }

  lemma {:induction false} ChildrenAllOrNothing(decode: Decoder, parent: Payload, i: nat)
    requires i <= |parent.children|
    ensures TransformChildren(decode, parent, i).Ok? <==> forall j | i <= j < |parent.children| :: AllDecode(decode, parent.children[j])
    decreases parent, |parent.children| - i
  {
    if i < |parent.children| {
      var c := parent.children[i];
      TransformAllOrNothing(decode, c, ChildPath(parent.absolutePath, parent.lastPathElement, c.lastPathElement));
      ChildrenAllOrNothing(decode, parent, i + 1);
    }
  }

  /** The decoder reports only wrapped errors. */
  ghost predicate Wraps(decode: Decoder)
  {
    forall x :: decode(x).Err? ==> decode(x).error.TransformFailed?
  }

  /** A failure of the whole transformation is one a node's decoding reported. */
  lemma {:induction false} TransformErrorWrapped(decode: Decoder, w: Payload, path: string)
    requires Wraps(decode)
    ensures Transform(decode, w, path).Err? ==> Transform(decode, w, path).error.TransformFailed?
    decreases w, |w.children| + 1
  {
    ChildrenErrorWrapped(decode, w, 0);
  }

  lemma {:induction false} ChildrenErrorWrapped(decode: Decoder, parent: Payload, i: nat)
    requires Wraps(decode) && i <= |parent.children|
    ensures TransformChildren(decode, parent, i).Err? ==> TransformChildren(decode, parent, i).error.TransformFailed?
    decreases parent, |parent.children| - i
  {
    if i < |parent.children| {
      var c := parent.children[i];
      TransformErrorWrapped(decode, c, ChildPath(parent.absolutePath, parent.lastPathElement, c.lastPathElement));
      ChildrenErrorWrapped(decode, parent, i + 1);
    }
  }

  /** `transformToSubTree` fails exactly when some node fails to decode, and always with "Error transforming data". */
  lemma TransformFailsWrapped(w: Payload)
    ensures Transform(DecodeData, w, w.absolutePath).Ok? <==> AllDecode(DecodeData, w)
    ensures Transform(DecodeData, w, w.absolutePath).Err? ==> Transform(DecodeData, w, w.absolutePath).error.TransformFailed?
  {
    TransformAllOrNothing(DecodeData, w, w.absolutePath);
    assert Wraps(DecodeData);
    TransformErrorWrapped(DecodeData, w, w.absolutePath);
  }

  // ------------------------------------- addInformationAboutPrimitiveDataTypes

  /** A node with its data replaced by `toString()` and tagged with `getName()`, recursively. */
  function Annotate(t: SubTree): (r: Payload)
    ensures r.absolutePath == t.absolutePath && r.lastPathElement == t.lastPathElement
    ensures r.addedPaths == t.addedPaths && |r.children| == |t.children|
    ensures r.data.Some? <==> t.data.Some?
    ensures t.data.Some? ==> r.dataType == Some(GetName(t.data.value)) && r.data == Some(ToString(t.data.value))
    decreases t, 1
  {
    var cs := AnnotateChildren(t.children);
    Payload(t.absolutePath, t.lastPathElement, t.addedPaths,
            if t.data.Some? then Some(ToString(t.data.value)) else None,
            if t.data.Some? then Some(GetName(t.data.value)) else None,
            cs)
  }

  function AnnotateChildren(ts: seq<SubTree>): (r: seq<Payload>)
    ensures |r| == |ts|
    decreases ts, 0
  {
    seq(|ts|, i requires 0 <= i < |ts| => Annotate(ts[i]))
  }

  /** `addInformationRecursive` on a clone of `t`. */
  method AnnotateTree(t: SubTree) returns (r: Payload)
    ensures r == Annotate(t)
    decreases t
  {
    var data, dataType := t.data, None;
    var stringData: Option<string> := None;
    if data.Some? {
      dataType := Some(GetName(data.value));
      stringData := Some(ToString(data.value));
    }
    var cs: seq<Payload> := [];
    var i := 0;
    while i < |t.children|
      invariant 0 <= i <= |t.children|
      invariant cs == AnnotateChildren(t.children)[..i]
    {
      var c := AnnotateTree(t.children[i]);
      cs := cs + [c];
      i := i + 1;
    }
    r := Payload(t.absolutePath, t.lastPathElement, t.addedPaths, stringData, dataType, cs);
  }

  /** `addInformationAboutPrimitiveDataTypes(subTrees)`: one annotated copy per tree, in order. */
  method AddInformationAboutPrimitiveDataTypes(trees: seq<SubTree>) returns (r: seq<Payload>)
    ensures |r| == |trees|
    ensures forall i :: 0 <= i < |trees| ==> r[i] == Annotate(trees[i])
  {
    r := [];
    var i := 0;
    while i < |trees|
      invariant 0 <= i <= |trees|
      invariant |r| == i
      invariant forall j :: 0 <= j < i ==> r[j] == Annotate(trees[j])
    {
      var p := AnnotateTree(trees[i]);
      r := r + [p];
      i := i + 1;
    }
  }

  // --------------------------------------------------------------- round trip

  /**
   * The paths of a tree as SubTree builds them: every node is named by its
   * path's last segment, and every child sits at the path the rebasing rule
   * gives it.
   */
  predicate PathsConsistent(t: SubTree)
    decreases t
  {
    && t.lastPathElement == LastSegment(t.absolutePath, '.')
    && forall c | c in t.children ::
         && c.absolutePath == ChildPath(t.absolutePath, t.lastPathElement, c.lastPathElement)
         && PathsConsistent(c)
  }

  /**
   * Every datum of the tree is a valid instance whose text is not empty and,
   * for an integer, is written in plain digits.
   */
  predicate DataSendable(t: SubTree)
    decreases t
  {
    && (t.data.Some? ==> Valid(t.data.value) && PrintsPlainly(t.data.value) && ToString(t.data.value) != "")
    && forall c | c in t.children :: DataSendable(c)
  }

  /** The decoder reads back the data of every annotated node of `t`. */
  predicate DecodesBack(decode: Decoder, t: SubTree)
    decreases t
  {
    && decode(Annotate(t)) == Ok(t.data)
    && forall c | c in t.children :: DecodesBack(decode, c)
  }

  /** A decoder that reads back every node rebuilds the annotated tree. */
  lemma {:induction false} RebuildOfAnnotate(decode: Decoder, t: SubTree)
    requires PathsConsistent(t) && DecodesBack(decode, t)
    ensures Transform(decode, Annotate(t), t.absolutePath) == Ok(t)
    decreases t
  {
    var w := Annotate(t);
    forall j | 0 <= j < |w.children|
      ensures Transform(decode, w.children[j], ChildPath(w.absolutePath, w.lastPathElement, w.children[j].lastPathElement))
           == Ok(t.children[j])
    {
      ChildOfAnnotated(decode, t, j);
      RebuildOfAnnotate(decode, t.children[j]);
    }
    RebuildChildren(decode, w, 0, t.children);
    assert t.children[0..] == t.children;
  }

  /** Children that each rebuild to the matching tree rebuild, in order, to those trees. */
  lemma {:induction false} RebuildChildren(decode: Decoder, w: Payload, i: nat, ts: seq<SubTree>)
    requires i <= |w.children| == |ts|
    requires forall j {:trigger ts[j]} :: i <= j < |w.children| ==>
               Transform(decode, w.children[j], ChildPath(w.absolutePath, w.lastPathElement, w.children[j].lastPathElement))
               == Ok(ts[j])
    ensures TransformChildren(decode, w, i) == Ok(ts[i..])
    decreases |w.children| - i
  {
    if i < |w.children| {
      RebuildChildren(decode, w, i + 1, ts);
      ChildrenStep(decode, w, i, ts[i], ts[i + 1..]);
      assert ts[i..] == [ts[i]] + ts[i + 1..];
    }
  }

  /** What the conditions on a tree give for its child at `i`. */
  lemma ChildOfAnnotated(decode: Decoder, t: SubTree, i: nat)
    requires PathsConsistent(t) && DecodesBack(decode, t) && i < |t.children|
    ensures Annotate(t).children[i] == Annotate(t.children[i])
    ensures t.children[i].absolutePath
         == ChildPath(Annotate(t).absolutePath, Annotate(t).lastPathElement, Annotate(t).children[i].lastPathElement)
    ensures PathsConsistent(t.children[i]) && DecodesBack(decode, t.children[i])
  {
    assert t.children[i] in t.children;
    assert Annotate(t).children == AnnotateChildren(t.children);
  }

  /** The children from `i` on: the child at `i` followed by those after it. */
  lemma ChildrenStep(decode: Decoder, w: Payload, i: nat, t: SubTree, ts: seq<SubTree>)
    requires i < |w.children|
    requires Transform(decode, w.children[i], ChildPath(w.absolutePath, w.lastPathElement, w.children[i].lastPathElement)) == Ok(t)
    requires TransformChildren(decode, w, i + 1) == Ok(ts)
    ensures TransformChildren(decode, w, i) == Ok([t] + ts)
  {
  }

  /** `DecodeData` reads back what `Annotate` wrote, node by node. */
  lemma {:induction false} AnnotatedDataDecode(t: SubTree)
    requires DataSendable(t)
    ensures DecodesBack(DecodeData, t)
    decreases t
  {
    if t.data.Some? {
      ParseFromStringOfToString(t.data.value);
    }
    assert DecodeData(Annotate(t)) == Ok(t.data);
    forall c | c in t.children
      ensures DecodesBack(DecodeData, c)
    {
      AnnotatedDataDecode(c);
    }
  }

  /** What `addInformationAboutPrimitiveDataTypes` sends, `transformToSubTree` rebuilds. */
  lemma TransformOfAnnotate(t: SubTree)
    requires PathsConsistent(t) && DataSendable(t)
    ensures Transform(DecodeData, Annotate(t), t.absolutePath) == Ok(t)
  {
    AnnotatedDataDecode(t);
    RebuildOfAnnotate(DecodeData, t);
  }

  /** Data whose text is empty travel as `""`, which `transformToSubTree` reads as no data. */
  lemma EmptyTextDropped(path: string, p: Primitive)
    requires ToString(p) == ""
    ensures Transform(DecodeData, Annotate(NewSubTree(path).(data := Some(p))), path) == Ok(NewSubTree(path))
  {
    assert AnnotateChildren([]) == [];
  }

  /** A tag that names no class makes the whole transformation fail. */
  lemma UnknownTagFails(path: string, text: string)
    requires text != ""
    ensures Transform(DecodeData, Payload(path, LastSegment(path, '.'), [], Some(text), Some("WrongPIO"), []), path)
              == Err(TransformFailed(UnknownDataType))
  {
  }

  /** A datum its class refuses makes the whole transformation fail with the class's error, wrapped. */
  lemma RefusedDatumFails(path: string, tag: string, text: string)
    requires text != "" && ClassByName(tag).Some?
    requires ParsePresent(ClassByName(tag).value, text).Err?
    ensures Transform(DecodeData, Payload(path, LastSegment(path, '.'), [], Some(text), Some(tag), []), path)
              == Err(TransformFailed(ParsePresent(ClassByName(tag).value, text).error))
  {
  }

  /** A text that is no UUID, sent as a UUID, makes the transformation fail. */
  lemma RefusedUuidFails(path: string)
    ensures Transform(DecodeData, Payload(path, LastSegment(path, '.'), [], Some("x"), Some("UuidPIO"), []), path)
              == Err(TransformFailed(InvalidUuid))
  {
    SplitWithoutSeparator("x", ':');
    RefusedDatumFails(path, "UuidPIO", "x");
  }

  /**
   * An element of a repeated field is placed beside its parent: the parent's
   * last segment is replaced by the child's.
   */
  lemma ChildBesideParent(base: string, name: string, index: string)
    requires '.' !in name && '[' !in name
    ensures ChildPath(base + "." + name, name, name + "[" + index) == base + "." + name + "[" + index
  {
    assert BeforeFirst(name + "[" + index, '[') == name by {
      BeforeFirstOfAppend(name, index, '[');
    }
    assert DropLastSegment(base + "." + name) == base by {
      DropLastSegmentOfAppend(base, name);
    }
  }

  /** Any other child is placed below its parent. */
  lemma ChildBelowParent(parentPath: string, parentLast: string, childLast: string)
    requires '[' !in childLast && childLast != parentLast
    ensures ChildPath(parentPath, parentLast, childLast) == parentPath + "." + childLast
  {
    assert BeforeFirst(childLast, '[') == childLast by {
      SplitWithoutSeparator(childLast, '[');
    }
  }
}
