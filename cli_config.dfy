/**
 * The sub-tree selection of the `config` command line tool: the arguments
 * name a path of sections below the root configuration, optionally ended by
 * a filter (a key, or a pattern that is not a plain word).
 * Property access on a configuration node is an input of the model.
 */
module CliConfig {
  import opened Wrappers

  /** What `$value->{$arg}` gives: a configuration section, another non-null value, or null. */
  datatype Found<N> = FoundSection(node: N) | FoundValue | FoundNull

  /** The selected sub-tree: its key, its node and the filter, if any. */
  datatype SubTree<N> = SubTree(key: string, value: N, filter: Option<string>)

  datatype InvalidArgument = InvalidArgument(message: string)

  function NotFoundMessage(arg: string): string {
    arg + ": key/section not found \U{1F61E}"
  }

  /** A character of the regular-expression class \w (no Unicode mode). */
  predicate IsWordChar(c: char) {
    'a' <= c <= 'z' || 'A' <= c <= 'Z' || '0' <= c <= '9' || c == '_'
  }

  /** preg_match('~^\w+$~', a): word characters only, `$` also matching before one final newline. */
  predicate IsWord(a: string) {
    var b := if |a| > 0 && a[|a| - 1] == '\n' then a[..|a| - 1] else a;
    |b| > 0 && forall i :: 0 <= i < |b| ==> IsWordChar(b[i])
  }

  /** A non-empty run of \w characters is a word, with or without one final newline. */
  lemma WordAccepted(w: string)
    requires |w| > 0 && forall i :: 0 <= i < |w| ==> IsWordChar(w[i])
    ensures IsWord(w) && IsWord(w + "\n")
  {
    var w' := w + "\n";
    assert w'[..|w'| - 1] == w;
  }

  /** Conversely, a word starts with a \w character and has no other character before its last. */
  lemma WordShape(w: string)
    requires IsWord(w)
    ensures |w| > 0 && IsWordChar(w[0]) && forall i :: 0 <= i < |w| - 1 ==> IsWordChar(w[i])
  {
    if |w| > 0 && w[|w| - 1] == '\n' {
      var b := w[..|w| - 1];
      assert b[0] == w[0];
      forall i | 0 <= i < |w| - 1 ensures IsWordChar(w[i]) {
        assert w[i] == b[i];
      }
    }
  }

  /**
   * Where the walk over the arguments ends: at a key, node and filter after
   * consuming `consumed` arguments, or at an argument that names nothing.
   */
  datatype Stop<N> =
    | Stopped(key: string, value: N, filter: Option<string>, consumed: nat)
    | NotFound(arg: string)

  function Shift<N>(s: Stop<N>, k: nat): Stop<N> {
    if s.Stopped? then s.(consumed := s.consumed + k) else s
  }

  /**
   * The walk: a non-word argument becomes the filter; a word naming a
   * section descends into it; a word naming a value becomes the filter; a
   * word naming nothing stops with an error.
   */
  function Walk<N>(key: string, value: N, args: seq<string>, lookup: (N, string) -> Found<N>): (s: Stop<N>)
    ensures s.Stopped? ==> s.consumed <= |args|
    ensures s.Stopped? && s.filter.None? ==> s.consumed == |args|
    ensures s.Stopped? && s.filter.Some? ==> 0 < s.consumed && s.filter.value == args[s.consumed - 1]
    ensures s.NotFound? ==> s.arg in args
    decreases |args|
  {
    if args == [] then Stopped(key, value, None, 0)
    else
      var a := args[0];
      if !IsWord(a) then Stopped(key, value, Some(a), 1)
      else
        match lookup(value, a)
        case FoundSection(n) => Shift(Walk(a, n, args[1..], lookup), 1)
        case FoundValue => Stopped(key, value, Some(a), 1)
        case FoundNull => NotFound(a)
  }

  /** The sub-tree the arguments select, or the error they raise. */
  function SubTreeOf<N>(appEnv: string, config: N, args: seq<string>, lookup: (N, string) -> Found<N>)
    : (r: Result<SubTree<N>, InvalidArgument>)
    ensures r.Failure? ==> exists a :: a in args && r.error == InvalidArgument(NotFoundMessage(a))
    ensures r.Success? && r.value.filter.Some? ==> |args| > 0 && r.value.filter.value == args[|args| - 1]
  {
    match Walk(appEnv, config, args, lookup)
    case NotFound(a) => Failure(InvalidArgument(NotFoundMessage(a)))
    case Stopped(k, v, f, c) =>
      if c < |args| then Failure(InvalidArgument(NotFoundMessage(args[c])))
      else Success(SubTree(k, v, f))
  }

  /** getSubTree(...$args): the walk as a loop with a counter and early exits. */
  method GetSubTree<N>(appEnv: string, config: N, args: seq<string>, lookup: (N, string) -> Found<N>)
    returns (r: Result<SubTree<N>, InvalidArgument>)
    ensures r == SubTreeOf(appEnv, config, args, lookup)
  {
    var key := appEnv;
    var value := config;
    var filter: Option<string> := None;
    var i := 0;
    while i < |args|
      invariant 0 <= i <= |args|
      invariant Walk(appEnv, config, args, lookup) == Shift(Walk(key, value, args[i..], lookup), i)
      invariant filter == None
    {
      var arg := args[i];
      assert args[i..][0] == arg && args[i..][1..] == args[i + 1..];
      i := i + 1;
      if !IsWord(arg) {
        filter := Some(arg);
        break;
      }
      match lookup(value, arg) {
        case FoundSection(n) =>
          key := arg;
          value := n;
        case FoundValue =>
          filter := Some(arg);
          break;
        case FoundNull =>
          return Failure(InvalidArgument(NotFoundMessage(arg)));
      }
    }
    if i < |args| {
      return Failure(InvalidArgument(NotFoundMessage(args[i])));
    }
    return Success(SubTree(key, value, filter));
  }

  /** `nodes` is what the lookups along `args` give, starting at `value`, each a section. */
  ghost predicate SectionChain<N>(value: N, args: seq<string>, nodes: seq<N>, lookup: (N, string) -> Found<N>) {
    && |nodes| == |args|
    && forall i :: 0 <= i < |args| ==>
      IsWord(args[i]) && lookup(Parent(value, nodes, i), args[i]) == FoundSection(nodes[i])
  }

  /** The node the `i`-th lookup of a chain starts from. */
  function Parent<N>(value: N, nodes: seq<N>, i: nat): N
    requires i <= |nodes|
  {
    if i == 0 then value else nodes[i - 1]
  }

  /** What follows the first section of a chain is a chain from that section. */
  lemma ChainTail<N>(value: N, args: seq<string>, nodes: seq<N>, lookup: (N, string) -> Found<N>)
    requires |args| > 0 && SectionChain(value, args, nodes, lookup)
    ensures SectionChain(nodes[0], args[1..], nodes[1..], lookup)
  {
    forall i | 0 <= i < |args| - 1
      ensures IsWord(args[1..][i])
      ensures lookup(Parent(nodes[0], nodes[1..], i), args[1..][i]) == FoundSection(nodes[1..][i])
    {
      assert args[1..][i] == args[i + 1];
      assert IsWord(args[i + 1]);
      assert Parent(nodes[0], nodes[1..], i) == Parent(value, nodes, i + 1);
    }
  }

  /** A walk along a chain of sections continues from the last of them. */
  lemma {:induction false} WalkAlongChain<N>(key: string, value: N, args: seq<string>, nodes: seq<N>, k: nat,
                                             lookup: (N, string) -> Found<N>)
    requires k <= |args| && SectionChain(value, args[..k], nodes, lookup)
    ensures Walk(key, value, args, lookup) ==
      Shift(Walk(if k == 0 then key else args[k - 1], Parent(value, nodes, k), args[k..], lookup), k)
    decreases k
  {
    if k == 0 {
      assert args[0..] == args;
      match Walk(key, value, args, lookup)
      case Stopped(_, _, _, _) =>
      case NotFound(_) =>
    } else {
      assert args[..k][0] == args[0];
      assert args[1..][..k - 1] == args[..k][1..];
      assert args[1..][k - 1..] == args[k..];
      var tail := nodes[1..];
      ChainTail(value, args[..k], nodes, lookup);
      assert lookup(Parent(value, nodes, 0), args[..k][0]) == FoundSection(nodes[0]);
      WalkAlongChain(args[0], nodes[0], args[1..], tail, k - 1, lookup);
      if k > 1 {
        assert tail[k - 2] == nodes[k - 1];
        assert args[1..][k - 2] == args[k - 1];
      }
      match Walk(if k == 1 then args[0] else args[k - 1], if k == 1 then nodes[0] else nodes[k - 1], args[k..], lookup)
      case Stopped(_, _, _, _) =>
      case NotFound(_) =>
    }
  }

  /** Arguments that all name sections select the deepest section, under its own name, with no filter. */
  lemma AllSections<N>(appEnv: string, config: N, args: seq<string>, nodes: seq<N>, lookup: (N, string) -> Found<N>)
    requires SectionChain(config, args, nodes, lookup)
    ensures SubTreeOf(appEnv, config, args, lookup) ==
      if args == [] then Success(SubTree(appEnv, config, None))
      else Success(SubTree(args[|args| - 1], nodes[|args| - 1], None))
  {
    assert args[..|args|] == args;
    WalkAlongChain(appEnv, config, args, nodes, |args|, lookup);
    assert args[|args|..] == [];
  }

  /** An argument naming nothing, reached along a chain of sections, is reported by name. */
  lemma MissingName<N>(appEnv: string, config: N, args: seq<string>, nodes: seq<N>, k: nat, lookup: (N, string) -> Found<N>)
    requires k < |args| && SectionChain(config, args[..k], nodes, lookup)
    requires IsWord(args[k]) && lookup(Parent(config, nodes, k), args[k]) == FoundNull
    ensures SubTreeOf(appEnv, config, args, lookup) == Failure(InvalidArgument(NotFoundMessage(args[k])))
  {
    WalkAlongChain(appEnv, config, args, nodes, k, lookup);
  }

  /**
   * After the section path at most one argument may follow, and it becomes
   * the filter; a second one is reported by name.
   */
  lemma FilterIsLast<N>(appEnv: string, config: N, args: seq<string>, nodes: seq<N>, k: nat, lookup: (N, string) -> Found<N>)
    requires k < |args| && SectionChain(config, args[..k], nodes, lookup)
    requires !IsWord(args[k]) || lookup(Parent(config, nodes, k), args[k]) == FoundValue
    ensures k + 1 == |args| ==> (SubTreeOf(appEnv, config, args, lookup) ==
      Success(SubTree(if k == 0 then appEnv else args[k - 1], Parent(config, nodes, k), Some(args[k]))))
    ensures k + 1 < |args| ==> (SubTreeOf(appEnv, config, args, lookup) ==
      Failure(InvalidArgument(NotFoundMessage(args[k + 1]))))
  {
    WalkAlongChain(appEnv, config, args, nodes, k, lookup);
  }

  /** A selected sub-tree with a filter has the last argument as that filter. */
  lemma FilterIsLastArgument<N>(appEnv: string, config: N, args: seq<string>, lookup: (N, string) -> Found<N>)
    requires SubTreeOf(appEnv, config, args, lookup).Success?
    requires SubTreeOf(appEnv, config, args, lookup).value.filter.Some?
    ensures |args| > 0 && SubTreeOf(appEnv, config, args, lookup).value.filter == Some(args[|args| - 1])
  {
  }
}
