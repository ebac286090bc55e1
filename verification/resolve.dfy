/**
 * `Path.Resolve` (path/path.go): walks the project document segment by
 * segment, dispatching on the kind of the child each segment names.
 */
module Resolver {
  import opened Wrappers
  import opened Model
  import opened Paths

  /** Why a path does not resolve; each error names the segment it stopped at. */
  datatype ResolveError =
    | NotAStruct(segment: Segment)          // the context has no tags to look the segment up in
    | SegmentNotFound(segment: Segment)     // no field carries the segment's name as its tag
    | NotACollection(segment: Segment)      // an index or a range applied to an object
    | MissingIndex(segment: Segment)        // a collection named without an index
    | IndexOutOfBounds(segment: Segment)    // a numeric index outside the collection
    | NamedIndexNotFound(segment: Segment)  // no element has the given `Name`
    | RangeNotSupported(segment: Segment)   // ranges are reserved syntax
    | ScalarIndexed(segment: Segment)       // an index or a range applied to a scalar

  /** The element carries a `Name` equal to `text`, character for character. */
  predicate HasName(n: Node, text: string) {
    n.Obj? && n.name == Some(text)
  }

  /** Position of the first element named `text`. */
  function FindNamed(elems: seq<Node>, text: string): (r: Option<nat>)
    ensures r.Some? ==> r.value < |elems| && HasName(elems[r.value], text)
    ensures r.Some? ==> forall j :: 0 <= j < r.value ==> !HasName(elems[j], text)
    ensures r.None? <==> forall j :: 0 <= j < |elems| ==> !HasName(elems[j], text)
  {
    if |elems| == 0 then None
    else if HasName(elems[0], text) then Some(0)
    else match FindNamed(elems[1..], text)
      case None => None
      case Some(k) => Some(k + 1)
  }

  /** The child a segment's name selects in the context, if the context has such a tag. */
  function ChildOf(context: Node, seg: Segment): Option<Node>
  {
    if context.Obj? then Lookup(context.fields, seg.name) else None
  }

  /** One iteration of the resolver's loop. */
  function Step(context: Node, seg: Segment): (r: Result<Node, ResolveError>)
    // the error taxonomy, each error exactly when its condition holds
    ensures r == Failure(NotAStruct(seg)) <==> !context.Obj?
    ensures r == Failure(SegmentNotFound(seg)) <==> context.Obj? && ChildOf(context, seg).None?
    ensures r == Failure(NotACollection(seg))
            <==> ChildOf(context, seg).Some? && ChildOf(context, seg).value.Obj? && !seg.kind.Plain?
    ensures r == Failure(ScalarIndexed(seg))
            <==> ChildOf(context, seg).Some? && ChildOf(context, seg).value.Scalar? && !seg.kind.Plain?
    ensures r == Failure(MissingIndex(seg))
            <==> ChildOf(context, seg).Some? && ChildOf(context, seg).value.Coll? && seg.kind.Plain?
    ensures r == Failure(RangeNotSupported(seg))
            <==> ChildOf(context, seg).Some? && ChildOf(context, seg).value.Coll? && seg.kind.Ranged?
    ensures r == Failure(IndexOutOfBounds(seg))
            <==> ChildOf(context, seg).Some? && ChildOf(context, seg).value.Coll?
                 && seg.kind.Indexed? && seg.kind.index.Numeric?
                 && !(0 <= seg.kind.index.n < |ChildOf(context, seg).value.elems|)
    ensures r == Failure(NamedIndexNotFound(seg))
            <==> ChildOf(context, seg).Some? && ChildOf(context, seg).value.Coll?
                 && seg.kind.Indexed? && seg.kind.index.Named?
                 && forall j :: 0 <= j < |ChildOf(context, seg).value.elems| ==>
                      !HasName(ChildOf(context, seg).value.elems[j], seg.kind.index.text)
    ensures seg.kind.Ranged? ==> r.Failure?
    ensures r.Failure? ==> r.error.segment == seg
    // what a successful step selects
    ensures seg.kind.Plain? ==>
              (r.Success? <==> context.Obj? && ChildOf(context, seg).Some? && !ChildOf(context, seg).value.Coll?)
    ensures r.Success? && seg.kind.Plain? ==> ChildOf(context, seg) == Some(r.value) && !r.value.Coll?
    ensures seg.kind.Indexed? && seg.kind.index.Numeric? ==>
              var i := seg.kind.index.n;
              r.Success? <==> ChildOf(context, seg).Some? && ChildOf(context, seg).value.Coll?
                              && 0 <= i < |ChildOf(context, seg).value.elems|
    ensures r.Success? && seg.kind.Indexed? && seg.kind.index.Numeric? ==>
              r.value == ChildOf(context, seg).value.elems[seg.kind.index.n]
    ensures seg.kind.Indexed? && seg.kind.index.Named? ==>
              var text := seg.kind.index.text;
              r.Success? <==> ChildOf(context, seg).Some? && ChildOf(context, seg).value.Coll?
                              && exists j :: 0 <= j < |ChildOf(context, seg).value.elems|
                                             && HasName(ChildOf(context, seg).value.elems[j], text)
    ensures r.Success? && seg.kind.Indexed? && seg.kind.index.Named? ==>
              var elems := ChildOf(context, seg).value.elems;
              exists j :: 0 <= j < |elems| && r.value == elems[j] && HasName(elems[j], seg.kind.index.text)
                          && forall k :: 0 <= k < j ==> !HasName(elems[k], seg.kind.index.text)
  {
    if !context.Obj? then Failure(NotAStruct(seg))
    else match Lookup(context.fields, seg.name)
      case None => Failure(SegmentNotFound(seg))
      case Some(child) =>
        match child
        case Obj(_, _) =>
          if seg.kind.Plain? then Success(child) else Failure(NotACollection(seg))
        case Coll(elems) =>
          (match seg.kind
           case Plain => Failure(MissingIndex(seg))
           case Ranged(_, _) => Failure(RangeNotSupported(seg))
           case Indexed(Numeric(i)) =>
             if i < 0 || i >= |elems| then Failure(IndexOutOfBounds(seg)) else Success(elems[i])
           case Indexed(Named(text)) =>
             (match FindNamed(elems, text)
              case None => Failure(NamedIndexNotFound(seg))
              case Some(k) => Success(elems[k])))
        case Scalar(_) =>
          if seg.kind.Plain? then Success(child) else Failure(ScalarIndexed(seg))
  }

  /** `Resolve`: the node the path leads to from `root`, or the first error on the way. */
  function Resolve(root: Node, path: Path): (r: Result<Node, ResolveError>)
    ensures |path| == 0 ==> r == Success(root)
    ensures |path| > 0 && Step(root, path[0]).Failure? ==> r == Failure(Step(root, path[0]).error)
    decreases |path|
  {
    if |path| == 0 then Success(root)
    else match Step(root, path[0])
      case Failure(e) => Failure(e)
      case Success(next) => Resolve(next, path[1..])
  }

  /** A one-segment path resolves as that segment's step from the root. */
  lemma ResolveOne(root: Node, seg: Segment)
    ensures Resolve(root, [seg]) == Step(root, seg)
  {
  }

  /** The empty path, which is what `Parse("")` yields, resolves to the root itself. */
  lemma EmptyPathIsRoot(root: Node)
    ensures Parse("") == Success([])
    ensures Resolve(root, Parse("").value) == Success(root)
  {
  }

  /** Resolving `p` followed by `q` resolves `q` from wherever `p` leads, and fails as `p` does. */
  lemma {:induction false} ResolveAppend(root: Node, p: Path, q: Path)
    ensures Resolve(root, Append(p, q)) ==
      match Resolve(root, p)
      case Failure(e) => Failure(e)
      case Success(n) => Resolve(n, q)
    decreases |p|
  {
    if |p| > 0 {
      assert Append(p, q)[0] == p[0];
      assert Append(p, q)[1..] == Append(p[1..], q);
      match Step(root, p[0])
      case Failure(_) =>
      case Success(next) => ResolveAppend(next, p[1..], q);
    }
  }

  /** Every prefix of a resolvable path resolves; in particular its parent does. */
  lemma PrefixResolves(root: Node, p: Path, k: nat)
    requires k <= |p| && Resolve(root, p).Success?
    ensures Resolve(root, p[..k]).Success?
  {
    assert p == Append(p[..k], p[k..]);
    ResolveAppend(root, p[..k], p[k..]);
  }

  /** A path holding a range segment never resolves, whatever the document holds. */
  lemma {:induction false} RangeNeverResolves(root: Node, p: Path, i: nat)
    requires i < |p| && p[i].kind.Ranged?
    ensures Resolve(root, p).Failure?
    decreases i
  {
    match Step(root, p[0])
    case Failure(_) =>
    case Success(next) =>
      assert i > 0;
      RangeNeverResolves(next, p[1..], i - 1);
  }

  /** Nothing resolves below a scalar. */
  lemma ScalarIsTerminal(root: Node, p: Path, v: Value, seg: Segment)
    requires Resolve(root, p) == Success(Scalar(v))
    ensures Resolve(root, Append(p, [seg])) == Failure(NotAStruct(seg))
  {
    ResolveAppend(root, p, [seg]);
  }
}
