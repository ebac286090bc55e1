/**
 * Tab completion for `cd` (command/cd.go): the completer closure,
 * `matchesFor`, `ls`, `keys`, `indices`, `names` and `getSlice`, as pure
 * functions from the document, the cursor and the partial input to a list of
 * candidates and the character readline appends after a sole candidate.
 */
module Completer {
  import opened Wrappers
  import opened Strings
  import opened Model
  import opened Paths
  import opened Resolver
  import opened Navigation

  /** The terminator 0: readline appends nothing after the candidate. */
  const NoTerminator: char := 0 as char

  /** Candidates, and the character to append when there is exactly one. */
  datatype Completion = Completion(candidates: seq<string>, terminator: char)

  const NoCompletion: Completion := Completion([], NoTerminator)

  // ------------------------------------------------------ ls and keys

  /** The tags of the object- and collection-valued fields, each once, in field order. */
  function KeysOf(fields: seq<Field>): (keys: seq<string>)
    ensures NoDuplicates(keys)
    ensures forall t :: t in keys <==> Lookup(fields, t).Some? && !Lookup(fields, t).value.Scalar?
    decreases |fields|
  {
    if |fields| == 0 then []
    else
      var rest := Without(KeysOf(fields[1..]), fields[0].tag);
      assert fields[0].tag !in rest;
      if fields[0].child.Scalar? then rest else [fields[0].tag] + rest
  }

  /** `ls` in command/cd.go: the object and collection children of the context, by tag. */
  function Ls(root: Node, context: Path): (m: map<string, Kind>)
    ensures Resolve(root, context).Failure? ==> m == map[]
    ensures forall t :: t in m ==> m[t] != ScalarKind
    ensures Resolve(root, context).Success? ==>
              var c := Children(Resolve(root, context).value);
              forall t :: (t in m <==> t in c && c[t] != ScalarKind) && (t in m ==> m[t] == c[t])
  {
    match Resolve(root, context)
    case Failure(_) => map[]
    case Success(n) =>
      var c := Children(n);
      map t | t in c && c[t] != ScalarKind :: c[t]
  }

  /** `keys(ls(context))`: the listing's tags as a list (field order stands in for map order). */
  function Keys(root: Node, context: Path): (keys: seq<string>)
    ensures NoDuplicates(keys)
    ensures forall t :: t in keys <==> t in Ls(root, context)
  {
    match Resolve(root, context)
    case Success(Obj(fields, _)) => KeysOf(fields)
    case _ => []
  }

  // ------------------------------------------------------ the collection under an open bracket

  /**
   * `getSlice`, as evidently intended: the elements of the collection-valued
   * field `name` of the context, or nothing.
   */
  function CollectionAt(root: Node, context: Path, name: string): (r: Option<seq<Node>>)
    ensures r.Some? <==> Resolve(root, context).Success? && Resolve(root, context).value.Obj?
                         && Lookup(Resolve(root, context).value.fields, name).Some?
                         && Lookup(Resolve(root, context).value.fields, name).value.Coll?
    ensures r.Some? ==> Lookup(Resolve(root, context).value.fields, name) == Some(Coll(r.value))
  {
    match Resolve(root, context)
    case Success(Obj(fields, _)) =>
      (match Lookup(fields, name)
       case Some(Coll(elems)) => Some(elems)
       case _ => None)
    case _ => None
  }

  /** What `getSlice` hands back as written: `reflect.Value` cases that matter to its callers. */
  datatype SliceValue =
    | Invalid              // the context does not resolve
    | Elements(elems: seq<Node>)  // a slice-valued field
    | Chars(length: nat)   // a string-valued field: `Len` counts its characters
    | Panic                // `FieldByName` or `Len` panics

  /**
   * `getSlice` as written. The guard meant to keep only slices tests the kind of
   * the `reflect.Value` wrapper, which is always a struct, so whatever field the
   * tag names is returned; an unknown tag leaves the context struct itself.
   * `Len` panics on a struct, a bool or an int, and `FieldByName` panics on a
   * context that is not a struct.
   */
  function GetSliceAsWritten(root: Node, context: Path, name: string): (r: SliceValue)
    ensures r == Invalid <==> Resolve(root, context).Failure?
    ensures r.Elements? ==> CollectionAt(root, context, name) == Some(r.elems)
    ensures CollectionAt(root, context, name).Some? ==> r == Elements(CollectionAt(root, context, name).value)
  {
    match Resolve(root, context)
    case Failure(_) => Invalid
    case Success(Obj(fields, _)) =>
      (match Lookup(fields, name)
       case Some(Coll(elems)) => Elements(elems)
       case Some(Scalar(Str(s))) => Chars(|s|)
       case _ => Panic)
    case Success(_) => Panic
  }

  // ------------------------------------------------------ indices and names

  /**
   * `indices` over a collection: one slot per element, holding the element's
   * decimal index when it starts with `partial`, and the empty string otherwise.
   */
  function Indices(elems: seq<Node>, partial: string): (r: seq<string>)
    ensures |r| == |elems|
    ensures forall i :: 0 <= i < |r| ==> r[i] == "" || r[i] == ToDecimal(i)
    ensures forall i :: 0 <= i < |r| ==> (r[i] != "" <==> HasPrefix(ToDecimal(i), partial))
  {
    seq(|elems|, i requires 0 <= i < |elems| => if HasPrefix(ToDecimal(i), partial) then ToDecimal(i) else "")
  }

  /** The element carries a `Name` that starts with `partial`: `names` offers it. */
  predicate NameOffered(e: Node, partial: string) {
    e.Obj? && e.name.Some? && HasPrefix(e.name.value, partial)
  }

  /** The positions of the elements `names` offers, ascending: every such element, once. */
  function NameIndices(elems: seq<Node>, partial: string): (idx: seq<nat>)
    ensures forall k :: 0 <= k < |idx| ==> idx[k] < |elems| && NameOffered(elems[idx[k]], partial)
    ensures forall k, l :: 0 <= k < l < |idx| ==> idx[k] < idx[l]
    ensures forall j :: 0 <= j < |elems| && NameOffered(elems[j], partial) ==> j in idx
  {
    if |elems| == 0 then []
    else
      var init := elems[..|elems| - 1];
      assert forall j :: 0 <= j < |init| ==> init[j] == elems[j];
      NameIndices(init, partial) + (if NameOffered(elems[|elems| - 1], partial) then [|elems| - 1] else [])
  }

  /**
   * `names` over a collection: the `Name` values starting with `partial`, in
   * collection order, one per element that carries one.
   */
  function Names(elems: seq<Node>, partial: string): (r: seq<string>)
    ensures |r| == |NameIndices(elems, partial)| <= |elems|
    ensures forall k :: 0 <= k < |r| ==> r[k] == elems[NameIndices(elems, partial)[k]].name.value
  {
    if |elems| == 0 then []
    else
      var init, e := elems[..|elems| - 1], elems[|elems| - 1];
      assert forall j :: 0 <= j < |init| ==> init[j] == elems[j];
      Names(init, partial) + (if NameOffered(e, partial) then [e.name.value] else [])
  }

  /** The names offered are exactly the matching `Name` values of the collection. */
  lemma NamesOffered(elems: seq<Node>, partial: string, x: string)
    ensures x in Names(elems, partial) <==> HasPrefix(x, partial) && exists j :: 0 <= j < |elems| && HasName(elems[j], x)
  {
    var r, idx := Names(elems, partial), NameIndices(elems, partial);
    if x in r {
      var k :| 0 <= k < |r| && r[k] == x;
      assert HasName(elems[idx[k]], x);
    }
    if HasPrefix(x, partial) && exists j :: 0 <= j < |elems| && HasName(elems[j], x) {
      var j :| 0 <= j < |elems| && HasName(elems[j], x);
      assert NameOffered(elems[j], partial);
      var k :| 0 <= k < |idx| && idx[k] == j;
      assert r[k] == x;
    }
  }

  /** Every position of the collection `name`, written as a closed index after the context, selects that element. */
  lemma {:induction false} SlotsResolve(root: Node, context: Path, name: string)
    requires CollectionAt(root, context, name).Some?
    ensures forall i :: 0 <= i < |CollectionAt(root, context, name).value| ==>
              Resolve(root, Append(context, [Segment(name, Indexed(Numeric(i)))]))
                == Success(CollectionAt(root, context, name).value[i])
  {
    var here := Resolve(root, context).value;
    forall i | 0 <= i < |CollectionAt(root, context, name).value|
      ensures Resolve(root, Append(context, [Segment(name, Indexed(Numeric(i)))]))
                == Success(CollectionAt(root, context, name).value[i])
    {
      var seg := Segment(name, Indexed(Numeric(i)));
      ResolveAppend(root, context, [seg]);
      ResolveOne(here, seg);
    }
  }

  /** Every name `names` offers from the collection `name`, written as a closed index, selects an element carrying it. */
  lemma {:induction false} NamesResolve(root: Node, context: Path, name: string, partial: string)
    requires CollectionAt(root, context, name).Some?
    ensures forall x :: x in Names(CollectionAt(root, context, name).value, partial) ==>
              && Resolve(root, Append(context, [Segment(name, Indexed(Named(x)))])).Success?
              && HasName(Resolve(root, Append(context, [Segment(name, Indexed(Named(x)))])).value, x)
  {
    var here := Resolve(root, context).value;
    var elems := CollectionAt(root, context, name).value;
    forall x | x in Names(elems, partial)
      ensures && Resolve(root, Append(context, [Segment(name, Indexed(Named(x)))])).Success?
              && HasName(Resolve(root, Append(context, [Segment(name, Indexed(Named(x)))])).value, x)
    {
      var seg := Segment(name, Indexed(Named(x)));
      NamesOffered(elems, partial, x);
      ResolveAppend(root, context, [seg]);
      ResolveOne(here, seg);
    }
  }

  /** `indices(context, name, partial)`: every slot it fills selects its element once the index is closed. */
  function IndexCandidates(root: Node, context: Path, name: string, partial: string): (r: seq<string>)
    ensures CollectionAt(root, context, name).None? ==> r == []
    ensures CollectionAt(root, context, name).Some? ==> r == Indices(CollectionAt(root, context, name).value, partial)
    ensures forall i :: 0 <= i < |r| && r[i] != "" ==>
              Resolve(root, Append(context, [Segment(name, Indexed(Numeric(i)))]))
                == Success(CollectionAt(root, context, name).value[i])
  {
    match CollectionAt(root, context, name)
    case None => []
    case Some(elems) =>
      SlotsResolve(root, context, name);
      Indices(elems, partial)
  }

  /** `names(context, name, partial)`: every name it offers selects an element carrying it once the index is closed. */
  function NameCandidates(root: Node, context: Path, name: string, partial: string): (r: seq<string>)
    ensures CollectionAt(root, context, name).None? ==> r == []
    ensures CollectionAt(root, context, name).Some? ==> r == Names(CollectionAt(root, context, name).value, partial)
    ensures forall x :: x in r ==>
              && Resolve(root, Append(context, [Segment(name, Indexed(Named(x)))])).Success?
              && HasName(Resolve(root, Append(context, [Segment(name, Indexed(Named(x)))])).value, x)
  {
    match CollectionAt(root, context, name)
    case None => []
    case Some(elems) =>
      NamesResolve(root, context, name, partial);
      Names(elems, partial)
  }

  // ------------------------------------------------------ the partial segment

  /**
   * `path.LastOpenSquareBracket`, defined in another file of the `path` package
   * and not modelled here; its
   * assumed contract: the last `[` of the segment, when no `]` follows it,
   * splits the segment into the collection name before it and the partial index
   * after it.
   */
  function LastOpenSquareBracket(segment: string): (r: Option<(string, string)>)
    ensures r.Some? ==> segment == r.value.0 + "[" + r.value.1 && '[' !in r.value.1 && ']' !in r.value.1
    ensures r.None? ==> '[' !in segment || exists i :: 0 <= i < |segment| && segment[i] == '[' && ']' in segment[i + 1..]
  {
    match LastIndexOf(segment, '[')
    case None => None
    case Some(i) =>
      if ']' in segment[i + 1..] then None
      else
        assert segment == segment[..i] + "[" + segment[i + 1..];
        Some((segment[..i], segment[i + 1..]))
  }

  /**
   * `path.SplitLastSegment`, defined in another file of the `path` package and
   * not modelled here; its
   * assumed contract: the text before the last `.` and the text after it, or
   * the empty path and the whole token when there is no `.`.
   */
  function SplitLastSegment(token: string): (r: (string, string))
    ensures '.' !in r.1
    ensures '.' in token ==> token == r.0 + "." + r.1
    ensures '.' !in token ==> r == ("", token)
  {
    match LastIndexOf(token, '.')
    case None => ("", token)
    case Some(i) =>
      assert token == token[..i] + "." + token[i + 1..];
      (token[..i], token[i + 1..])
  }

  // ------------------------------------------------------ matchesFor

  /** The terminator after a sole key: nothing for an object, `[` to prompt for an index otherwise. */
  function KeyTerminator(root: Node, context: Path, key: string): char
    requires key in Ls(root, context)
  {
    if Ls(root, context)[key] == ObjectKind then NoTerminator else '['
  }

  /** The candidates under an unclosed `[`: numeric, named, or both when nothing is typed yet. */
  function BracketCandidates(root: Node, context: Path, name: string, partial: string): seq<string>
  {
    if partial == "" then IndexCandidates(root, context, name, partial) + NameCandidates(root, context, name, partial)
    else if ParseUint32(partial).Some? then IndexCandidates(root, context, name, partial)
    else NameCandidates(root, context, name, partial)
  }

  /** `matchesFor`: candidates for the partial last segment in the given context. */
  function MatchesFor(root: Node, context: Path, segment: string): (r: Completion)
    // an exact key stands alone
    ensures segment in Ls(root, context) ==>
              r == Completion([segment], KeyTerminator(root, context, segment))
    // an unclosed index: `]` exactly when one slot is offered
    ensures segment !in Ls(root, context) && LastOpenSquareBracket(segment).Some? ==>
              var (name, partial) := LastOpenSquareBracket(segment).value;
              && r.candidates == BracketCandidates(root, context, name, partial)
              && (r.terminator == ']' <==> |r.candidates| == 1)
              && (r.terminator != ']' ==> r.terminator == NoTerminator)
    // a plain partial: every key it starts, and nothing else
    ensures segment !in Ls(root, context) && LastOpenSquareBracket(segment).None? ==>
              && NoDuplicates(r.candidates)
              && (forall c :: c in r.candidates <==> c in Ls(root, context) && HasPrefix(c, segment))
              && (|r.candidates| == 1 ==> r.terminator == KeyTerminator(root, context, r.candidates[0]))
              && (|r.candidates| != 1 ==> r.terminator == NoTerminator)
  {
    var keys := Keys(root, context);
    if segment in keys then
      Completion([segment], KeyTerminator(root, context, segment))
    else match LastOpenSquareBracket(segment)
      case Some((name, partial)) =>
        var matches := BracketCandidates(root, context, name, partial);
        Completion(matches, if |matches| == 1 then ']' else NoTerminator)
      case None =>
        var matches := WithPrefix(keys, segment);
        if |matches| == 1 then Completion(matches, KeyTerminator(root, context, matches[0]))
        else Completion(matches, NoTerminator)
  }

  // ------------------------------------------------------ the completer closure

  /**
   * The context the last partial segment is completed in: the cursor, extended
   * by the path typed before the last `.`; nothing when that path does not parse.
   */
  function WorkingContext(cursor: Path, prefix: string): (r: Option<Path>)
    ensures prefix == "" ==> r == Some(cursor)
    ensures prefix != "" ==> (r.Some? <==> Parse(prefix).Success?)
    ensures prefix != "" && r.Some? ==> r.value == Append(cursor, Parse(prefix).value)
    // the context always lies below the cursor ...
    ensures r.Some? ==> |cursor| <= |r.value| && r.value[..|cursor|] == cursor
    // ... and is where `cd` with the typed prefix would move it
    ensures prefix != "" && !IsShortcut(prefix) ==>
              (r.Some? <==> Navigation.Target(cursor, prefix).Success?)
              && (r.Some? ==> r.value == Navigation.Target(cursor, prefix).value)
  {
    if prefix == "" then Some(cursor)
    else match Parse(prefix)
      case Failure(_) => None
      case Success(p) => Some(Append(cursor, p))
  }

  /** The completer of `cd`: `cmdline` is the whole line, `query` the word under the cursor. */
  function CdComplete(root: Node, cursor: Path, query: string, cmdline: string): (r: Completion)
    ensures |Fields(cmdline)| == 1 && query == "" ==> r == Completion(Keys(root, cursor), NoTerminator)
    ensures |Fields(cmdline)| == 0 || (|Fields(cmdline)| == 1 && query != "") ==> r == NoCompletion
    ensures |Fields(cmdline)| > 1 ==>
              var (prefix, segment) := SplitLastSegment(Fields(cmdline)[1]);
              && (prefix == "" ==> r == MatchesFor(root, cursor, segment))
              && (prefix != "" && Parse(prefix).Failure? ==> r == NoCompletion)
              && (prefix != "" && Parse(prefix).Success? ==>
                    r == MatchesFor(root, Append(cursor, Parse(prefix).value), segment))
  {
    var tokens := Fields(cmdline);
    if |tokens| == 1 && query == "" then Completion(Keys(root, cursor), NoTerminator)
    else if |tokens| > 1 then
      var (prefix, segment) := SplitLastSegment(tokens[1]);
      match WorkingContext(cursor, prefix)
      case None => NoCompletion
      case Some(context) => MatchesFor(root, context, segment)
    else NoCompletion
  }

  /** The `cd` argument a key completes the typed path to. */
  function Completed(prefix: string, key: string): string
  {
    if prefix == "" then key else prefix + "." + key
  }

  // ------------------------------------------------------ what the candidates mean

  /** A context that does not resolve offers nothing, whatever is typed. */
  lemma UnresolvableContextOffersNothing(root: Node, context: Path, segment: string)
    requires Resolve(root, context).Failure?
    ensures MatchesFor(root, context, segment) == NoCompletion
  {
  }

  /**
   * A sole plain candidate is finished consistently with the resolver: with no
   * terminator when the path extended by it resolves, with `[` exactly when the
   * resolver would ask for an index.
   */
  lemma SoleKeyTerminatorAgreesWithResolve(root: Node, context: Path, key: string)
    requires key in Ls(root, context)
    ensures var seg := Segment(key, Plain);
            && (KeyTerminator(root, context, key) == NoTerminator <==> Resolve(root, Append(context, [seg])).Success?)
            && (KeyTerminator(root, context, key) == '[' <==>
                  Resolve(root, Append(context, [seg])) == Failure(MissingIndex(seg)))
  {
    var seg := Segment(key, Plain);
    var here := Resolve(root, context).value;
    var child := Lookup(here.fields, key).value;
    assert KeyTerminator(root, context, key) == NoTerminator <==> child.Obj? by {
      assert Ls(root, context)[key] == KindOf(child);
    }
    assert Resolve(root, Append(context, [seg])) == Step(here, seg) by {
      ResolveAppend(root, context, [seg]);
      assert Resolve(here, [seg]) == Step(here, seg);
    }
    KeyStep(here, key);
  }

  /** Stepping into a listed key: an object is entered, a collection asks for an index. */
  lemma KeyStep(here: Node, key: string)
    requires here.Obj? && Lookup(here.fields, key).Some? && !Lookup(here.fields, key).value.Scalar?
    ensures var child := Lookup(here.fields, key).value;
            && (child.Obj? ==> Step(here, Segment(key, Plain)) == Success(child))
            && (child.Coll? ==> Step(here, Segment(key, Plain)) == Failure(MissingIndex(Segment(key, Plain))))
  {
  }

  /** The completed argument parses to the working context's path plus the key. */
  lemma ParseCompleted(cursor: Path, prefix: string, key: string)
    requires WorkingContext(cursor, prefix).Some? && IsName(key)
    ensures var arg := Completed(prefix, key);
            && !IsShortcut(arg)
            && Parse(arg).Success?
            && Append(cursor, Parse(arg).value) == Append(WorkingContext(cursor, prefix).value, [Segment(key, Plain)])
  {
    var arg := Completed(prefix, key);
    var seg := Segment(key, Plain);
    NameHasNoPunctuation(key);
    assert arg[|arg| - 1] == key[|key| - 1];
    if prefix == "" {
      ParseName(key);
    } else {
      ParseSnoc(prefix, key);
      assert Append(cursor, Parse(prefix).value + [seg]) == Append(cursor, Parse(prefix).value) + [seg];
    }
  }

  /**
   * Accepting a key offered in the working context gives a `cd` argument that
   * moves the cursor exactly when the key was offered without a terminator,
   * and then onto that key.
   */
  lemma KeyCompletionNavigates(root: Node, cursor: Path, prefix: string, key: string)
    requires WorkingContext(cursor, prefix).Some? && IsName(key)
    requires key in Ls(root, WorkingContext(cursor, prefix).value)
    ensures var context := WorkingContext(cursor, prefix).value;
            var cd := ChangeDirectory(root, cursor, [Completed(prefix, key)]);
            && (cd.err.None? <==> KeyTerminator(root, context, key) == NoTerminator)
            && (cd.err.None? ==> cd.cursor == Append(context, [Segment(key, Plain)]))
  {
    var context := WorkingContext(cursor, prefix).value;
    ParseCompleted(cursor, prefix, key);
    SoleKeyTerminatorAgreesWithResolve(root, context, key);
  }

  /** Every numeric slot offered under `[` selects an element when the index is closed. */
  lemma IndexCandidatesResolve(root: Node, context: Path, name: string, partial: string, i: nat)
    requires i < |IndexCandidates(root, context, name, partial)|
    requires IndexCandidates(root, context, name, partial)[i] != ""
    ensures var seg := Segment(name, Indexed(Numeric(i)));
            Resolve(root, Append(context, [seg])) == Success(CollectionAt(root, context, name).value[i])
  {
  }

  /** Every name offered under `[` selects an element carrying that name when the index is closed. */
  lemma NameCandidatesResolve(root: Node, context: Path, name: string, partial: string, x: string)
    requires x in NameCandidates(root, context, name, partial)
    ensures var seg := Segment(name, Indexed(Named(x)));
            && Resolve(root, Append(context, [seg])).Success?
            && HasName(Resolve(root, Append(context, [seg])).value, x)
  {
  }

  /** With only the command typed, the candidates are exactly the navigable children of the cursor. */
  lemma BareCommandOffersChildren(root: Node, cursor: Path, cmdline: string, t: string)
    requires |Fields(cmdline)| == 1
    ensures var r := CdComplete(root, cursor, "", cmdline);
            && r.terminator == NoTerminator
            && NoDuplicates(r.candidates)
            && (t in r.candidates <==> Resolve(root, cursor).Success? && Resolve(root, cursor).value.Obj?
                                       && Lookup(Resolve(root, cursor).value.fields, t).Some?
                                       && !Lookup(Resolve(root, cursor).value.fields, t).value.Scalar?)
  {
  }

  /**
   * The corrected `getSlice` agrees with the one written wherever the latter
   * returns a usable value, and offers nothing where the latter panics.
   */
  lemma GetSliceCorrection(root: Node, context: Path, name: string, partial: string)
    ensures GetSliceAsWritten(root, context, name).Elements? <==> CollectionAt(root, context, name).Some?
    ensures GetSliceAsWritten(root, context, name) == Panic ==> BracketCandidates(root, context, name, partial) == []
  {
  }

  lemma OpenBracketSplitsConfig()
    ensures LastOpenSquareBracket("config[") == Some(("config", ""))
  {
    var seg := "config[";
    assert seg[|seg| - 1] == '[';
    assert LastIndexOf(seg, '[') == Some(6);
    assert seg[7..] == "";
    assert seg[..6] == "config";
  }

  /** A tag that is a name is never a partial segment holding `[`. */
  lemma BracketedIsNotKey(root: Node, fields: seq<Field>, segment: string)
    requires root == Obj(fields, None) && '[' in segment
    requires forall i :: 0 <= i < |fields| ==> IsName(fields[i].tag)
    ensures segment !in Ls(root, [])
  {
    if segment in Ls(root, []) {
      var i :| 0 <= i < |fields| && fields[i].tag == segment;
      NameHasNoPunctuation(fields[i].tag);
    }
  }

  /**
   * The panic: completing `config[` at the root of a project whose `config` is an
   * object makes `getSlice` return the struct, whose `Len` panics; the corrected
   * completion offers nothing.
   */
  lemma OpenBracketOnObjectPanics(root: Node, fields: seq<Field>, config: Node)
    requires root == Obj(fields, None) && Lookup(fields, "config") == Some(config) && config.Obj?
    requires forall i :: 0 <= i < |fields| ==> IsName(fields[i].tag)
    ensures GetSliceAsWritten(root, [], "config") == Panic
    ensures MatchesFor(root, [], "config[") == NoCompletion
  {
    ObjectFieldIsNoSlice(root, fields, "config", config);
    assert "config["[6] == '[';
    BracketedIsNotKey(root, fields, "config[");
    OpenBracketSplitsConfig();
    UnclosedBracketCompletion(root, [], "config[", "config", "");
  }

  /** A struct-valued field of the root is handed to `Len` as written, and yields no bracket candidates once corrected. */
  lemma ObjectFieldIsNoSlice(root: Node, fields: seq<Field>, name: string, child: Node)
    requires root == Obj(fields, None) && Lookup(fields, name) == Some(child) && child.Obj?
    ensures GetSliceAsWritten(root, [], name) == Panic
    ensures BracketCandidates(root, [], name, "") == []
  {
    assert Resolve(root, []) == Success(root);
    assert CollectionAt(root, [], name).None?;
  }

  /**
   * A string-valued field of the root reaches `Len` as written, which counts its
   * characters, so the written `indices` offers positions into the string; the
   * corrected completion offers nothing.
   */
  lemma StringFieldAsWritten(root: Node, fields: seq<Field>, name: string, text: string, partial: string)
    requires root == Obj(fields, None) && Lookup(fields, name) == Some(Scalar(Str(text)))
    ensures GetSliceAsWritten(root, [], name) == Chars(|text|)
    ensures BracketCandidates(root, [], name, partial) == []
  {
    assert Resolve(root, []) == Success(root);
    assert CollectionAt(root, [], name).None?;
  }

  /** A partial segment with an unclosed `[` that is not itself a key completes to the bracket candidates. */
  lemma UnclosedBracketCompletion(root: Node, context: Path, segment: string, name: string, partial: string)
    requires segment !in Ls(root, context) && LastOpenSquareBracket(segment) == Some((name, partial))
    ensures var matches := BracketCandidates(root, context, name, partial);
            MatchesFor(root, context, segment) == Completion(matches, if |matches| == 1 then ']' else NoTerminator)
  {
  }
}
