/**
 * The `add` command (command/add.go): how its action sorts the arguments into
 * a subcommand, a `--times=n` option and one comma-separated value, and what
 * its completer offers.
 */
module AddCommand {
  import opened Wrappers
  import opened Strings

  const SubCommands: seq<string> := ["server-group", "host", "server", "deployment", "user"]
  const TimesOption: string := "--times"

  /** The literal part of the pattern `--times=([0-9]+)`. */
  const TimesPrefix: string := "--times="

  // ------------------------------------------------------ the unanchored `--times=` pattern

  /** The pattern matches at position `i`: the literal, then at least one digit. */
  predicate OptionAt(arg: string, i: nat) {
    i + |TimesPrefix| < |arg| && arg[i..i + |TimesPrefix|] == TimesPrefix && IsDigit(arg[i + |TimesPrefix|])
  }

  /** The longest run of digits at the start of `s` (the greedy `[0-9]+`). */
  function DigitRun(s: string): (r: string)
    ensures |r| <= |s| && r == s[..|r|] && AllDigits(r)
    ensures |r| < |s| ==> !IsDigit(s[|r|])
  {
    if |s| == 0 || !IsDigit(s[0]) then ""
    else [s[0]] + DigitRun(s[1..])
  }

  /** The leftmost position at or after `from` where the pattern matches. */
  function LeftmostMatch(arg: string, from: nat): (r: Option<nat>)
    ensures r.Some? ==> from <= r.value && OptionAt(arg, r.value)
    ensures r.Some? ==> forall k: nat :: from <= k < r.value ==> !OptionAt(arg, k)
    ensures r.None? ==> forall k: nat :: from <= k ==> !OptionAt(arg, k)
    decreases |arg| - from
  {
    if from >= |arg| then None
    else if OptionAt(arg, from) then Some(from)
    else LeftmostMatch(arg, from + 1)
  }

  /**
   * `timesRegex.FindStringSubmatch(arg)[1]`: the digits of the leftmost match,
   * taken greedily, or nothing when `MatchString` fails.
   */
  function TimesDigits(arg: string): (r: Option<string>)
    ensures r.None? <==> forall k: nat :: !OptionAt(arg, k)
    ensures r.Some? ==> |r.value| > 0 && AllDigits(r.value)
    ensures r.Some? ==> exists i: nat :: OptionAt(arg, i) && (forall k: nat :: k < i ==> !OptionAt(arg, k))
                                        && r.value == DigitRun(arg[i + |TimesPrefix|..])
  {
    match LeftmostMatch(arg, 0)
    case None => None
    case Some(i) => Some(DigitRun(arg[i + |TimesPrefix|..]))
  }

  // ------------------------------------------------------ argument classification

  datatype ArgKind = SubCommand | Times(digits: string) | Value

  /** The action's test order: a subcommand name first, then the option pattern, else a value. */
  function Classify(arg: string): (k: ArgKind)
    ensures k == SubCommand <==> arg in SubCommands
    ensures k.Times? <==> arg !in SubCommands && TimesDigits(arg).Some?
    ensures k.Times? ==> k.digits == TimesDigits(arg).value
  {
    if arg in SubCommands then SubCommand
    else match TimesDigits(arg)
      case Some(d) => Times(d)
      case None => Value
  }

  datatype AddError =
    | MissingArguments        // no argument at all
    | ErrorReading(arg: string) // the digits do not fit `ParseUint(_, 10, 32)`
    | InvalidTimes            // `--times=0`
    | NoValues                // no value argument
    | TooManyArguments        // more than one value argument

  /** What the action would go on to add: the subcommand, the values and the repeat count. */
  datatype AddRequest = AddRequest(cmd: string, values: seq<string>, times: nat)

  /** The error a single argument causes, if any: only the option can fail, and only on its digits. */
  function ArgError(arg: string): (r: Option<AddError>)
    ensures r.Some? ==> Classify(arg).Times?
    ensures Classify(arg).Times? ==>
              (ParseUint32(Classify(arg).digits).None? <==> r == Some(ErrorReading(arg)))
              && (ParseUint32(Classify(arg).digits) == Some(0) <==> r == Some(InvalidTimes))
  {
    match Classify(arg)
    case Times(d) =>
      (match ParseUint32(d)
       case None => Some(ErrorReading(arg))
       case Some(t) => if t < 1 then Some(InvalidTimes) else None)
    case _ => None
  }

  // ------------------------------------------------------ reference definitions, argument by argument

  /** The positions of the value arguments, ascending: every one of them, once. */
  function ValueIndices(args: seq<string>): (idx: seq<nat>)
    ensures forall k :: 0 <= k < |idx| ==> idx[k] < |args| && Classify(args[idx[k]]) == Value
    ensures forall k, l :: 0 <= k < l < |idx| ==> idx[k] < idx[l]
    ensures forall i :: 0 <= i < |args| && Classify(args[i]) == Value ==> i in idx
  {
    if |args| == 0 then []
    else
      var init := args[..|args| - 1];
      assert forall i :: 0 <= i < |init| ==> init[i] == args[i];
      ValueIndices(init) + (if Classify(args[|args| - 1]) == Value then [|args| - 1] else [])
  }

  /** The value arguments, in order, with repetitions: one entry per value argument. */
  function ValueArgs(args: seq<string>): (r: seq<string>)
    ensures |r| == |ValueIndices(args)|
    ensures forall k :: 0 <= k < |r| ==> r[k] == args[ValueIndices(args)[k]]
  {
    if |args| == 0 then []
    else
      var init, last := args[..|args| - 1], args[|args| - 1];
      assert forall i :: 0 <= i < |init| ==> init[i] == args[i];
      assert ValueIndices(args) == ValueIndices(init) + (if Classify(last) == Value then [|args| - 1] else []);
      ValueArgs(init) + (if Classify(last) == Value then [last] else [])
  }

  /** The values collected are exactly the arguments classified as values. */
  lemma ValueArgsMembers(args: seq<string>, x: string)
    ensures x in ValueArgs(args) <==> exists i :: 0 <= i < |args| && args[i] == x && Classify(x) == Value
  {
    var r, idx := ValueArgs(args), ValueIndices(args);
    if x in r {
      var k :| 0 <= k < |r| && r[k] == x;
      assert args[idx[k]] == x;
    }
    if exists i :: 0 <= i < |args| && args[i] == x && Classify(x) == Value {
      var i :| 0 <= i < |args| && args[i] == x && Classify(x) == Value;
      var k :| 0 <= k < |idx| && idx[k] == i;
      assert r[k] == x;
    }
  }

  /** The last subcommand named, or the empty string. */
  function LastSubCommand(args: seq<string>): (r: string)
    ensures r == "" || r in SubCommands
    ensures r == "" <==> forall i :: 0 <= i < |args| ==> args[i] !in SubCommands
    // the last subcommand argument wins
    ensures r != "" ==> exists i :: 0 <= i < |args| && args[i] == r
                                   && forall j :: i < j < |args| ==> args[j] !in SubCommands
  {
    if |args| == 0 then ""
    else if args[|args| - 1] in SubCommands then args[|args| - 1]
    else
      var init := args[..|args| - 1];
      assert forall i :: 0 <= i < |init| ==> init[i] == args[i];
      var r := LastSubCommand(init);
      assert r != "" ==> exists i :: 0 <= i < |args| && args[i] == r
                                     && forall j :: i < j < |args| ==> args[j] !in SubCommands by {
        if r != "" {
          var i :| 0 <= i < |init| && init[i] == r && forall j :: i < j < |init| ==> init[j] !in SubCommands;
          forall j | i < j < |args|
            ensures args[j] !in SubCommands
          {
            if j < |init| { assert init[j] == args[j]; }
          }
          assert args[i] == r;
        }
      }
      r
  }

  /** The count of the last `--times=n`, or the default 1. */
  function LastTimes(args: seq<string>): nat
    requires forall i :: 0 <= i < |args| ==> ArgError(args[i]).None?
  {
    if |args| == 0 then 1
    else
      var last := args[|args| - 1];
      var init := args[..|args| - 1];
      assert ArgError(last).None?;
      assert forall i :: 0 <= i < |init| ==> init[i] == args[i];
      match Classify(last)
      case Times(d) => ParseUint32(d).value
      case _ => LastTimes(args[..|args| - 1])
  }

  /** The error of the first argument that has one. */
  function FirstError(args: seq<string>): (r: Option<AddError>)
    ensures r.None? <==> forall i :: 0 <= i < |args| ==> ArgError(args[i]).None?
  {
    if |args| == 0 then None
    else
      var init := args[..|args| - 1];
      assert forall i :: 0 <= i < |init| ==> init[i] == args[i];
      match FirstError(init)
      case Some(e) => Some(e)
      case None => ArgError(args[|args| - 1])
  }

  /** `FirstError` is the error of the earliest argument that fails. */
  lemma {:induction false} FirstErrorIsFirst(args: seq<string>, i: nat)
    requires i < |args| && ArgError(args[i]).Some?
    requires forall j :: 0 <= j < i ==> ArgError(args[j]).None?
    ensures FirstError(args) == ArgError(args[i])
    decreases |args|
  {
    var init := args[..|args| - 1];
    if i < |args| - 1 {
      assert FirstError(init) == ArgError(args[i]) by {
        assert init[i] == args[i];
        assert forall j :: 0 <= j < i ==> init[j] == args[j];
        FirstErrorIsFirst(init, i);
      }
    } else {
      assert FirstError(init).None? by {
        assert forall j :: 0 <= j < |init| ==> init[j] == args[j];
      }
    }
  }

  /** Without argument errors, the repeat count stays within `1..MaxUint32`. */
  lemma {:induction false} LastTimesPositive(args: seq<string>)
    requires forall i :: 0 <= i < |args| ==> ArgError(args[i]).None?
    ensures 1 <= LastTimes(args) <= MaxUint32
    decreases |args|
  {
    if |args| > 0 {
      var init := args[..|args| - 1];
      assert forall i :: 0 <= i < |init| ==> init[i] == args[i];
      LastTimesPositive(init);
    }
  }

  // ------------------------------------------------------ the action

  /** The loop's variables: the subcommand, the value arguments so far and the repeat count. */
  datatype Scan = Scan(cmd: string, values: seq<string>, times: nat)

  const Initial: Scan := Scan("", [], 1)

  /** One iteration of the action's loop; it fails exactly on an argument with an error. */
  function ScanArg(st: Scan, arg: string): (r: Result<Scan, AddError>)
    ensures r.Failure? <==> ArgError(arg).Some?
    ensures r.Failure? ==> r.error == ArgError(arg).value
  {
    match Classify(arg)
    case SubCommand => Success(st.(cmd := arg))
    case Times(d) =>
      (match ParseUint32(d)
       case None => Failure(ErrorReading(arg))
       case Some(t) => if t < 1 then Failure(InvalidTimes) else Success(st.(times := t)))
    case Value => Success(st.(values := st.values + [arg]))
  }

  /** The loop run over `args`, stopping at the first error. */
  function ScanAll(args: seq<string>): Result<Scan, AddError>
  {
    if |args| == 0 then Success(Initial)
    else match ScanAll(args[..|args| - 1])
      case Failure(e) => Failure(e)
      case Success(st) => ScanArg(st, args[|args| - 1])
  }

  /**
   * The loop computes the reference definitions: the first argument error, or
   * else the last subcommand, the value arguments and the last repeat count.
   */
  lemma {:induction false} ScanComputes(args: seq<string>)
    ensures FirstError(args).Some? ==> ScanAll(args) == Failure(FirstError(args).value)
    ensures FirstError(args).None? ==>
              ScanAll(args) == Success(Scan(LastSubCommand(args), ValueArgs(args), LastTimes(args)))
    decreases |args|
  {
    if |args| > 0 {
      var init, last := args[..|args| - 1], args[|args| - 1];
      ScanComputes(init);
      if FirstError(init).Some? {
        assert FirstError(args) == FirstError(init);
      } else {
        assert FirstError(args) == ArgError(last);
        ScanStep(args);
      }
    }
  }

  /** The step of `ScanComputes` for an argument following a prefix without errors. */
  lemma ScanStep(args: seq<string>)
    requires |args| > 0 && FirstError(args[..|args| - 1]).None?
    requires ScanAll(args[..|args| - 1]) == Success(Scan(
               LastSubCommand(args[..|args| - 1]), ValueArgs(args[..|args| - 1]), LastTimes(args[..|args| - 1])))
    ensures FirstError(args).Some? ==> ScanAll(args) == Failure(FirstError(args).value)
    ensures FirstError(args).None? ==>
              ScanAll(args) == Success(Scan(LastSubCommand(args), ValueArgs(args), LastTimes(args)))
  {
    var init, last := args[..|args| - 1], args[|args| - 1];
    var before := Scan(LastSubCommand(init), ValueArgs(init), LastTimes(init));
    assert FirstError(args) == ArgError(last);
    assert ScanAll(args) == ScanArg(before, last);
    if ArgError(last).None? {
      match Classify(last)
      case SubCommand =>
        assert LastSubCommand(args) == last;
        assert ValueArgs(args) == ValueArgs(init);
        assert LastTimes(args) == LastTimes(init);
      case Times(d) =>
        assert LastSubCommand(args) == LastSubCommand(init);
        assert ValueArgs(args) == ValueArgs(init);
        assert LastTimes(args) == ParseUint32(d).value;
      case Value =>
        assert LastSubCommand(args) == LastSubCommand(init);
        assert ValueArgs(args) == ValueArgs(init) + [last];
        assert LastTimes(args) == LastTimes(init);
    }
  }

  /** Once the loop has failed on a prefix, the whole run fails the same way. */
  lemma {:induction false} ScanStaysFailed(args: seq<string>, k: nat)
    requires k <= |args| && ScanAll(args[..k]).Failure?
    ensures ScanAll(args) == ScanAll(args[..k])
    decreases |args| - k
  {
    if k < |args| {
      var init := args[..|args| - 1];
      assert init[..k] == args[..k];
      ScanStaysFailed(init, k);
    } else {
      assert args[..k] == args;
    }
  }

  /** The action closure of `add`, as the loop over the arguments it is. */
  method Add(args: seq<string>) returns (r: Result<AddRequest, AddError>)
    ensures |args| == 0 ==> r == Failure(MissingArguments)
    ensures |args| > 0 && FirstError(args).Some? ==> r == Failure(FirstError(args).value)
    ensures |args| > 0 && FirstError(args).None? ==>
              && (|ValueArgs(args)| == 0 ==> r == Failure(NoValues))
              && (|ValueArgs(args)| > 1 ==> r == Failure(TooManyArguments))
              && (|ValueArgs(args)| == 1 ==>
                    r == Success(AddRequest(LastSubCommand(args), Split(ValueArgs(args)[0], ','), LastTimes(args))))
    ensures r.Success? ==> 1 <= r.value.times <= MaxUint32 && |r.value.values| >= 1
  {
    if |args| == 0 {
      return Failure(MissingArguments);
    }
    var st := Initial;
    var i := 0;
    while i < |args|
      invariant 0 <= i <= |args|
      invariant ScanAll(args[..i]) == Success(st)
      decreases |args| - i
    {
      assert args[..i + 1][..i] == args[..i];
      match ScanArg(st, args[i]) {
        case Failure(e) =>
          ScanStaysFailed(args, i + 1);
          ScanComputes(args);
          return Failure(e);
        case Success(next) =>
          st := next;
      }
      i := i + 1;
    }
    assert args[..i] == args;
    ScanComputes(args);
    LastTimesPositive(args);
    if |st.values| == 0 {
      return Failure(NoValues);
    } else if |st.values| > 1 {
      return Failure(TooManyArguments);
    }
    r := Success(AddRequest(st.cmd, Split(st.values[0], ','), st.times));
  }

  // ------------------------------------------------------ what the pattern accepts

  /** The leftmost match is the first position where the pattern matches. */
  lemma {:induction false} LeftmostIsFirst(arg: string, from: nat, i: nat)
    requires from <= i && OptionAt(arg, i)
    requires forall k: nat :: from <= k < i ==> !OptionAt(arg, k)
    ensures LeftmostMatch(arg, from) == Some(i)
    decreases i - from
  {
    if from < i {
      LeftmostIsFirst(arg, from + 1, i);
    }
  }

  /** The pattern is not anchored: it is found anywhere in the argument. */
  lemma OptionFoundInside(before: string, digits: string, after: string)
    requires |digits| > 0 && AllDigits(digits)
    requires forall k: nat :: !OptionAt(before + TimesPrefix, k)
    requires |after| == 0 || !IsDigit(after[0])
    ensures TimesDigits(before + TimesPrefix + digits + after) == Some(digits)
  {
    var head := before + TimesPrefix;
    var arg := head + (digits + after);
    assert arg == before + TimesPrefix + digits + after;
    var i := |before|;
    assert arg[i..i + |TimesPrefix|] == TimesPrefix;
    assert arg[i + |TimesPrefix|] == digits[0];
    forall k: nat | k < i
      ensures !OptionAt(arg, k)
    {
      assert arg[k..k + |TimesPrefix|] == head[k..k + |TimesPrefix|];
      assert arg[k + |TimesPrefix|] == head[k + |TimesPrefix|];
      assert !OptionAt(head, k);
    }
    LeftmostIsFirst(arg, 0, i);
    assert arg[i + |TimesPrefix|..] == digits + after;
    DigitRunStops(digits, after);
  }

  lemma {:induction false} DigitRunStops(digits: string, after: string)
    requires AllDigits(digits)
    requires |after| == 0 || !IsDigit(after[0])
    ensures DigitRun(digits + after) == digits
    decreases |digits|
  {
    if |digits| > 0 {
      assert (digits + after)[1..] == digits[1..] + after;
      DigitRunStops(digits[1..], after);
    } else {
      assert digits + after == after;
    }
  }

  /** `--times=` followed by something other than a digit is an ordinary value. */
  lemma LettersAreAValue()
    ensures Classify("--times=abc") == Value
  {
    forall k: nat
      ensures !OptionAt("--times=abc", k)
    {
    }
  }

  /** No subcommand name starts with a dash, so no option spelling is taken for one. */
  lemma DashIsNoSubCommand(arg: string)
    requires |arg| > 0 && arg[0] == '-'
    ensures arg !in SubCommands
  {
    forall i | 0 <= i < |SubCommands|
      ensures SubCommands[i][0] != '-'
    {
    }
  }

  /** The option as the completer leads the user to write it sets the repeat count. */
  lemma CompletedOptionSetsTimes(n: nat)
    requires 1 <= n <= MaxUint32
    ensures Classify(TimesPrefix + ToDecimal(n)) == Times(ToDecimal(n))
    ensures ArgError(TimesPrefix + ToDecimal(n)).None?
    ensures LastTimes([TimesPrefix + ToDecimal(n)]) == n
  {
    var d := ToDecimal(n);
    var arg := TimesPrefix + d;
    assert Classify(arg) == Times(d) by {
      assert arg[0] == '-';
      DashIsNoSubCommand(arg);
      forall k: nat
        ensures !OptionAt("" + TimesPrefix, k)
      {
      }
      assert "" + TimesPrefix + d + "" == arg;
      OptionFoundInside("", d, "");
    }
    assert ParseUint32(d) == Some(n) by {
      DecimalRoundTrip(n);
    }
    assert [arg][..0] == [];
  }

  // ------------------------------------------------------ the completer

  /** Candidates, and the character readline appends after a sole one. */
  datatype AddCompletion = AddCompletion(candidates: seq<string>, terminator: char)

  /** Some token of the line is a subcommand name. */
  predicate SubCommandGiven(tokens: seq<string>) {
    exists i :: 0 <= i < |tokens| && tokens[i] in SubCommands
  }

  /** Some token of the line starts with `--times`. */
  predicate TimesGiven(tokens: seq<string>) {
    exists i :: 0 <= i < |tokens| && HasPrefix(tokens[i], TimesOption)
  }

  /** The subcommands still worth offering for `query`: those it starts, except itself. */
  function SubCommandCandidates(query: string): (r: seq<string>)
    ensures forall c :: c in r <==> c in SubCommands && c != query && HasPrefix(c, query)
  {
    if query == "" then SubCommands
    else
      var m := WithPrefix(SubCommands, query);
      Without(m, query)
  }

  /** The completer closure of `add`. */
  function AddComplete(query: string, cmdline: string): (r: AddCompletion)
    ensures var tokens := Fields(cmdline);
            |tokens| == 1 && query == "" ==> r.candidates == SubCommands + [TimesOption]
    ensures var tokens := Fields(cmdline);
            !(|tokens| == 1 && query == "") ==>
              && (forall c :: c in r.candidates && c in SubCommands <==>
                    !SubCommandGiven(tokens) && c in SubCommands && c != query && HasPrefix(c, query))
              && (TimesOption in r.candidates <==> !TimesGiven(tokens) && HasPrefix(TimesOption, query))
              && (forall c :: c in r.candidates ==> c in SubCommands || c == TimesOption)
    ensures r.terminator == '=' <==> r.candidates == [TimesOption]
    ensures r.terminator != '=' ==> r.terminator == ' '
  {
    var tokens := Fields(cmdline);
    assert TimesOption !in SubCommands;
    var offered := if !SubCommandGiven(tokens) then SubCommandCandidates(query) else [];
    assert forall c :: c in offered ==> c in SubCommands;
    var matches :=
      if |tokens| == 1 && query == "" then SubCommands + [TimesOption]
      else
        offered + (if !TimesGiven(tokens) && HasPrefix(TimesOption, query) then [TimesOption] else []);
    AddCompletion(matches, if |matches| == 1 && matches[0] == TimesOption then '=' else ' ')
  }

  /** Every subcommand the completer offers is taken by the action as the subcommand. */
  lemma OfferedSubCommandsAreRecognised(query: string, cmdline: string, c: string)
    requires c in AddComplete(query, cmdline).candidates && c != TimesOption
    ensures Classify(c) == SubCommand
  {
  }
}
