/**
 * The actions of `cd` and `ls` (command/cd.go, command/ls.go). The
 * package-level `CurrentPath` becomes an explicit cursor: `cd` takes the
 * cursor and returns the cursor afterwards, `ls` takes it and returns the
 * node it would print.
 */
module Navigation {
  import opened Wrappers
  import opened Model
  import opened Paths
  import opened Resolver

  datatype NavError =
    | MissingArgument                   // `cd` without an argument
    | TooManyArguments                  // more than one argument
    | CannotGoUp                        // `..` at the root
    | AlreadyAtRoot                     // `/` at the root
    | BadPath(parse: ParseError)        // the argument is not a path
    | Unresolvable(resolve: ResolveError) // the path leads nowhere in the document

  /** The cursor after `cd`, and the error it reported, if any. */
  datatype CdOutcome = CdOutcome(cursor: Path, err: Option<NavError>)

  /** The argument names a navigation shortcut rather than a path. */
  predicate IsShortcut(arg: string) {
    arg == ".." || arg == "/"
  }

  /**
   * The path one argument designates relative to the cursor: the parent for
   * `..`, the root for `/`, the cursor extended by the parsed argument otherwise.
   * Both actions compute it the same way.
   */
  function Target(cursor: Path, arg: string): (r: Result<Path, NavError>)
    ensures arg == ".." ==> (r.Success? <==> |cursor| > 0)
    ensures arg == ".." && r.Success? ==> |r.value| + 1 == |cursor| && cursor == r.value + [cursor[|cursor| - 1]]
    ensures arg == ".." && r.Failure? ==> r.error == CannotGoUp
    ensures arg == "/" ==> (r.Success? <==> |cursor| > 0)
    ensures arg == "/" && r.Success? ==> r.value == []
    ensures arg == "/" && r.Failure? ==> r.error == AlreadyAtRoot
    ensures !IsShortcut(arg) ==> (r.Success? <==> Parse(arg).Success?)
    ensures !IsShortcut(arg) && r.Success? ==>
              |r.value| >= |cursor| && r.value[..|cursor|] == cursor && r.value[|cursor|..] == Parse(arg).value
    ensures !IsShortcut(arg) && r.Failure? ==> r.error == BadPath(Parse(arg).error)
  {
    if arg == ".." then
      if IsEmpty(cursor) then Failure(CannotGoUp)
      else
        assert cursor == cursor[..|cursor| - 1] + [cursor[|cursor| - 1]];
        Success(cursor[..|cursor| - 1])
    else if arg == "/" then
      if IsEmpty(cursor) then Failure(AlreadyAtRoot) else Success([])
    else match Parse(arg)
      case Failure(e) => Failure(BadPath(e))
      case Success(p) => Success(Append(cursor, p))
  }

  /** The action of `cd`: the cursor moves only when the whole command succeeds. */
  function ChangeDirectory(root: Node, cursor: Path, args: seq<string>): (r: CdOutcome)
    ensures r.err.Some? ==> r.cursor == cursor
    ensures r.err == Some(MissingArgument) <==> |args| == 0
    ensures r.err == Some(TooManyArguments) <==> |args| > 1
    ensures |args| == 1 && args[0] == ".." ==>
              (r.err.None? <==> |cursor| > 0) && (r.err.None? ==> r.cursor == cursor[..|cursor| - 1])
    ensures |args| == 1 && args[0] == "/" ==>
              (r.err.None? <==> |cursor| > 0) && (r.err.None? ==> r.cursor == [])
    ensures |args| == 1 && !IsShortcut(args[0]) ==>
              (r.err.None? <==> Parse(args[0]).Success? && Resolve(root, Append(cursor, Parse(args[0]).value)).Success?)
    ensures |args| == 1 && !IsShortcut(args[0]) && r.err.None? ==>
              r.cursor == Append(cursor, Parse(args[0]).value)
  {
    if |args| == 0 then CdOutcome(cursor, Some(MissingArgument))
    else if |args| > 1 then CdOutcome(cursor, Some(TooManyArguments))
    else match Target(cursor, args[0])
      case Failure(e) => CdOutcome(cursor, Some(e))
      case Success(t) =>
        if IsShortcut(args[0]) then CdOutcome(t, None)
        else match Resolve(root, t)
          case Failure(e) => CdOutcome(cursor, Some(Unresolvable(e)))
          case Success(_) => CdOutcome(t, None)
  }

  /** The action of `ls`: the node at the designated context; the cursor is only read. */
  function ListAction(root: Node, cursor: Path, args: seq<string>): (r: Result<Node, NavError>)
    // no argument: the node at the cursor
    ensures |args| == 0 ==> (r.Success? <==> Resolve(root, cursor).Success?)
    ensures |args| == 0 && r.Success? ==> r.value == Resolve(root, cursor).value
    ensures |args| == 0 && r.Failure? ==> r.error == Unresolvable(Resolve(root, cursor).error)
    ensures |args| > 1 ==> r == Failure(TooManyArguments)
    // `..`: the parent, refused at the root
    ensures |args| == 1 && args[0] == ".." && |cursor| == 0 ==> r == Failure(CannotGoUp)
    ensures |args| == 1 && args[0] == ".." && |cursor| > 0 ==>
              (r.Success? <==> Resolve(root, cursor[..|cursor| - 1]).Success?)
              && (r.Success? ==> r.value == Resolve(root, cursor[..|cursor| - 1]).value)
    // `/`: the document itself, refused at the root
    ensures |args| == 1 && args[0] == "/" ==>
              r == if |cursor| == 0 then Failure(AlreadyAtRoot) else Success(root)
    // a path: the node at the cursor extended by it
    ensures |args| == 1 && !IsShortcut(args[0]) && Parse(args[0]).Failure? ==>
              r == Failure(BadPath(Parse(args[0]).error))
    ensures |args| == 1 && !IsShortcut(args[0]) && Parse(args[0]).Success? ==>
              var context := Append(cursor, Parse(args[0]).value);
              (r.Success? <==> Resolve(root, context).Success?)
              && (r.Success? ==> r.value == Resolve(root, context).value)
              && (r.Failure? ==> r.error == Unresolvable(Resolve(root, context).error))
  {
    var context := if |args| == 0 then Success(cursor) else Target(cursor, args[0]);
    if |args| > 1 then Failure(TooManyArguments)
    else match context
      case Failure(e) => Failure(e)
      case Success(c) =>
        (match Resolve(root, c)
         case Failure(e) => Failure(Unresolvable(e))
         case Success(n) => Success(n))
  }

  /** A cursor that resolves keeps resolving after any `cd`, successful or not. */
  lemma CdPreservesResolvable(root: Node, cursor: Path, args: seq<string>)
    requires Resolve(root, cursor).Success?
    ensures Resolve(root, ChangeDirectory(root, cursor, args).cursor).Success?
  {
    if |args| == 1 && args[0] == ".." && |cursor| > 0 {
      PrefixResolves(root, cursor, |cursor| - 1);
    }
  }

  /** `cd` into one segment and then `cd ..` comes back to where it started. */
  lemma CdIntoThenUp(root: Node, cursor: Path, arg: string)
    requires !IsShortcut(arg) && Parse(arg).Success? && |Parse(arg).value| == 1
    requires ChangeDirectory(root, cursor, [arg]).err.None?
    ensures ChangeDirectory(root, ChangeDirectory(root, cursor, [arg]).cursor, [".."]) == CdOutcome(cursor, None)
  {
    var down := ChangeDirectory(root, cursor, [arg]).cursor;
    assert down[..|down| - 1] == cursor;
  }

  /**
   * From a resolvable cursor, `ls <arg>` shows exactly the node `cd <arg>` would
   * move to, and fails with exactly the error `cd <arg>` would report.
   */
  lemma ListAgreesWithCd(root: Node, cursor: Path, arg: string)
    requires Resolve(root, cursor).Success?
    ensures var cd := ChangeDirectory(root, cursor, [arg]);
            cd.err.Some? ==> ListAction(root, cursor, [arg]) == Failure(cd.err.value)
    ensures var cd := ChangeDirectory(root, cursor, [arg]);
            cd.err.None? ==> Resolve(root, cd.cursor).Success?
                             && ListAction(root, cursor, [arg]) == Success(Resolve(root, cd.cursor).value)
  {
    if arg == ".." && |cursor| > 0 {
      PrefixResolves(root, cursor, |cursor| - 1);
    }
  }

  /** `cd` into a collection without an index is refused, and the cursor stays put. */
  lemma CdNeedsIndex(root: Node, cursor: Path, arg: string, elems: seq<Node>)
    requires !IsShortcut(arg) && Parse(arg).Success? && |Parse(arg).value| == 1
    requires Parse(arg).value[0].kind.Plain?
    requires Resolve(root, cursor).Success?
    requires ChildOf(Resolve(root, cursor).value, Parse(arg).value[0]) == Some(Coll(elems))
    ensures ChangeDirectory(root, cursor, [arg]) ==
              CdOutcome(cursor, Some(Unresolvable(MissingIndex(Parse(arg).value[0]))))
  {
    var seg := Parse(arg).value[0];
    var here := Resolve(root, cursor).value;
    assert Parse(arg).value == [seg];
    assert Step(here, seg) == Failure(MissingIndex(seg));
    assert Resolve(here, [seg]) == Failure(MissingIndex(seg));
    ResolveAppend(root, cursor, [seg]);
  }
}
