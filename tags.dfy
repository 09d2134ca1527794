/**
 * The three custom YAML tags a section resolves while its files are parsed:
 * `!path` (a path under the process root), `!env` (environment variables
 * with literal fallbacks) and `!map` (a template expanded once per item of
 * a list found elsewhere in the configuration).
 * The process root, the environment, the YAML parser and property access on
 * objects are inputs of the model.
 */
module Tags {
  import opened Wrappers
  import opened PhpStrings
  import opened PhpArrays
  import opened YamlErrors

  // ----- !path -----

  /**
   * callbackPath: the process root, a slash, then the argument with all of
   * its leading slashes removed.
   */
  function CallbackPath(zeroRoot: string, s: string): (r: string)
    ensures |zeroRoot| + 1 <= |r| && r[..|zeroRoot| + 1] == zeroRoot + "/"
    ensures var rest := r[|zeroRoot| + 1..];
      (rest == [] || rest[0] != '/') && |rest| <= |s| && s[|s| - |rest|..] == rest
      && forall i :: 0 <= i < |s| - |rest| ==> s[i] == '/'
  {
    zeroRoot + "/" + LTrimSlashes(s)
  }

  /** Any number of extra leading slashes leaves the resolved path unchanged. */
  lemma {:induction false} CallbackPathIgnoresLeadingSlashes(zeroRoot: string, slashes: string, s: string)
    requires forall i :: 0 <= i < |slashes| ==> slashes[i] == '/'
    ensures CallbackPath(zeroRoot, slashes + s) == CallbackPath(zeroRoot, s)
    decreases |slashes|
  {
    if slashes != [] {
      assert (slashes + s)[1..] == slashes[1..] + s;
      CallbackPathIgnoresLeadingSlashes(zeroRoot, slashes[1..], s);
    } else {
      assert slashes + s == s;
    }
  }

  /** `!path "/x/y"` and `!path "x/y"` both give `<root>/x/y`. */
  lemma CallbackPathExample(zeroRoot: string)
    ensures CallbackPath(zeroRoot, "/x/y") == CallbackPath(zeroRoot, "x/y") == zeroRoot + "/x/y"
  {
    var s := "x/y";
    CallbackPathPlain(zeroRoot, s);
    CallbackPathIgnoresLeadingSlashes(zeroRoot, "/", s);
    assert "/" + s == "/x/y";
    assert zeroRoot + "/" + s == zeroRoot + ("/" + s);
  }

  /** An argument without a leading slash is appended as it is. */
  lemma CallbackPathPlain(zeroRoot: string, s: string)
    requires s == [] || s[0] != '/'
    ensures CallbackPath(zeroRoot, s) == zeroRoot + "/" + s
  {
  }

  // ----- !env -----

  /** The process environment: variable name to value. */
  type Env = map<string, string>

  /** The YAML parser applied to a literal: a value, or the error it raises. */
  type LiteralParser = string -> Result<Value, Exception>

  /** An alternative names a variable when its first character is a letter. */
  predicate NamesVariable(a: string) {
    |a| > 0 && IsAlpha(a[0])
  }

  /**
   * What one `||`-alternative evaluates to: after trimming, a variable's
   * value (null when it is not set) or the alternative parsed as YAML.
   */
  function Alternative(alt: string, env: Env, parse: LiteralParser): (r: Result<Value, Exception>)
    ensures NamesVariable(Trim(alt)) ==> r.Success? && (r.value == Null <==> Trim(alt) !in env)
  {
    var a := Trim(alt);
    if NamesVariable(a) then Success(if a in env then Str(env[a]) else Null)
    else parse(a)
  }

  /** The index of the first alternative that does not evaluate to null. */
  function Decisive(alts: seq<string>, env: Env, parse: LiteralParser): (i: nat)
    ensures i <= |alts|
    ensures forall j :: 0 <= j < i ==> Alternative(alts[j], env, parse) == Success(Null)
    ensures i < |alts| ==> Alternative(alts[i], env, parse) != Success(Null)
    decreases |alts|
  {
    if alts == [] || Alternative(alts[0], env, parse) != Success(Null) then 0
    else
      var k := Decisive(alts[1..], env, parse);
      assert forall j :: 1 <= j <= k ==> alts[j] == alts[1..][j - 1];
      1 + k
  }

  /** Every index with the properties of Decisive is Decisive. */
  lemma DecisiveIsFirst(alts: seq<string>, env: Env, parse: LiteralParser, k: nat)
    requires k <= |alts|
    requires forall j :: 0 <= j < k ==> Alternative(alts[j], env, parse) == Success(Null)
    requires k < |alts| ==> Alternative(alts[k], env, parse) != Success(Null)
    ensures Decisive(alts, env, parse) == k
  {
  }

  /**
   * The value of `!env str`: the first alternative that is not null (or the
   * error its parse raised); null when every alternative is null.
   */
  function EnvValue(str: string, env: Env, parse: LiteralParser): (r: Result<Value, Exception>)
    ensures r == Success(Null) || exists alt :: alt in Explode("||", str) && r == Alternative(alt, env, parse)
  {
    var alts := Explode("||", str);
    var i := Decisive(alts, env, parse);
    if i == |alts| then Success(Null) else Alternative(alts[i], env, parse)
  }

  /** callbackEnv: evaluate the alternatives left to right, returning early. */
  method CallbackEnv(str: string, env: Env, parse: LiteralParser) returns (r: Result<Value, Exception>)
    ensures r == EnvValue(str, env, parse)
  {
    var alts := Explode("||", str);
    var k := 0;
    while k < |alts|
      invariant 0 <= k <= |alts|
      invariant forall j :: 0 <= j < k ==> Alternative(alts[j], env, parse) == Success(Null)
    {
      var alt := Trim(alts[k]);
      var value: Result<Value, Exception>;
      if NamesVariable(alt) {
        value := Success(if alt in env then Str(env[alt]) else Null);
      } else {
        value := parse(alt);
      }
      if value != Success(Null) {
        DecisiveIsFirst(alts, env, parse, k);
        return value;
      }
      k := k + 1;
    }
    DecisiveIsFirst(alts, env, parse, k);
    return Success(Null);
  }

  /** The alternative after a run of null ones decides the result. */
  lemma EnvFirstNonNullWins(str: string, env: Env, parse: LiteralParser, k: nat)
    requires var alts := Explode("||", str);
      k < |alts|
      && (forall j :: 0 <= j < k ==> Alternative(alts[j], env, parse) == Success(Null))
      && Alternative(alts[k], env, parse) != Success(Null)
    ensures EnvValue(str, env, parse) == Alternative(Explode("||", str)[k], env, parse)
  {
    DecisiveIsFirst(Explode("||", str), env, parse, k);
  }

  /** When every alternative is null the tag yields null. */
  lemma EnvAllNull(str: string, env: Env, parse: LiteralParser)
    requires forall j :: 0 <= j < |Explode("||", str)| ==>
      Alternative(Explode("||", str)[j], env, parse) == Success(Null)
    ensures EnvValue(str, env, parse) == Success(Null)
  {
    DecisiveIsFirst(Explode("||", str), env, parse, |Explode("||", str)|);
  }

  /**
   * A non-null result, or a raised error, comes from some alternative, and
   * every alternative before it is null.
   */
  lemma EnvResultIsAnAlternative(str: string, env: Env, parse: LiteralParser)
    requires EnvValue(str, env, parse) != Success(Null)
    ensures exists k :: (0 <= k < |Explode("||", str)|
      && EnvValue(str, env, parse) == Alternative(Explode("||", str)[k], env, parse)
      && forall j :: 0 <= j < k ==> Alternative(Explode("||", str)[j], env, parse) == Success(Null))
  {
    var alts := Explode("||", str);
    var k := Decisive(alts, env, parse);
    assert k < |alts|;
    assert EnvValue(str, env, parse) == Alternative(alts[k], env, parse);
  }

  /** With three alternatives of which the first two are null, the third decides. */
  lemma EnvThirdAlternative(str: string, a: string, b: string, c: string, env: Env, parse: LiteralParser)
    requires Explode("||", str) == [a, b, c]
    requires Alternative(a, env, parse) == Success(Null) && Alternative(b, env, parse) == Success(Null)
    ensures EnvValue(str, env, parse) == Alternative(c, env, parse)
  {
    DecisiveIsFirst(Explode("||", str), env, parse, if Alternative(c, env, parse) == Success(Null) then 3 else 2);
  }

  lemma ExampleAlternatives()
    ensures Explode("||", "A || B || 3") == ["A ", " B ", " 3"]
  {
    var sep, a, b, c := "||", "A ", " B ", " 3";
    FirstCharAbsent(sep, a);
    FirstCharAbsent(sep, b);
    FirstCharAbsent(sep, c);
    ExplodeWithout(sep, c);
    ExplodeAtFirst(sep, b, c);
    assert b + sep + c == " B || 3";
    ExplodeAtFirst(sep, a, b + sep + c);
    assert a + sep + (b + sep + c) == "A || B || 3";
  }

  lemma ExampleTrims()
    ensures Trim("A ") == "A" && Trim(" B ") == "B" && Trim(" 3") == "3"
  {
    TrimTrailing();
    TrimBoth();
    TrimLeading();
  }

  lemma TrimTrailing()
    ensures Trim("A ") == "A"
  {
    var s, sp, a := "A ", " ", "A";
    assert |s| == 2 && s[..1] == a && s[1..] == sp;
    assert s == "" + a + sp;
    TrimAround("", a, sp);
  }

  lemma TrimBoth()
    ensures Trim(" B ") == "B"
  {
    var s, sp, b := " B ", " ", "B";
    assert |s| == 3 && s[..1] == sp && s[1..2] == b && s[2..] == sp;
    assert s == sp + b + sp;
    TrimAround(sp, b, sp);
  }

  lemma TrimLeading()
    ensures Trim(" 3") == "3"
  {
    var s, sp, c := " 3", " ", "3";
    assert |s| == 2 && s[..1] == sp && s[1..] == c;
    assert s == sp + c + "";
    TrimAround(sp, c, "");
  }

  lemma TrimAround(lead: string, core: string, trail: string)
    requires |lead| <= 1 && |trail| <= 1 && |core| == 1
    requires (forall i :: 0 <= i < |lead| ==> lead[i] == ' ') && (forall i :: 0 <= i < |trail| ==> trail[i] == ' ')
    requires !IsTrimChar(core[0])
    ensures Trim(lead + core + trail) == core
  {
    var s := lead + core + trail;
    assert s[|lead|] == core[0];
    assert CountLeading(s, IsTrimChar) == |lead|;
  }

  lemma ExampleValues(env: Env, parse: LiteralParser)
    requires "A" !in env && "B" !in env
    requires parse("3") == Success(Int(3))
    ensures Alternative("A ", env, parse) == Success(Null)
    ensures Alternative(" B ", env, parse) == Success(Null)
    ensures Alternative(" 3", env, parse) == Success(Int(3))
  {
    ExampleTrims();
  }

  /** `!env A || B || 3` is the integer 3 when neither A nor B is set. */
  lemma EnvExample(env: Env, parse: LiteralParser)
    requires "A" !in env && "B" !in env
    requires parse("3") == Success(Int(3))
    ensures EnvValue("A || B || 3", env, parse) == Success(Int(3))
  {
    ExampleAlternatives();
    ExampleValues(env, parse);
    EnvThirdAlternative("A || B || 3", "A ", " B ", " 3", env, parse);
  }

  /** A variable that is set to the empty string is not skipped. */
  lemma EnvEmptyVariableWins(name: string, env: Env, parse: LiteralParser)
    requires NamesVariable(name) && '|' !in name
    requires !IsTrimChar(name[|name| - 1])
    requires name in env && env[name] == ""
    ensures EnvValue(name, env, parse) == Success(Str(""))
  {
    FirstCharAbsent("||", name);
    ExplodeWithout("||", name);
    assert !IsTrimChar(name[0]);
    assert CountLeading(name, IsTrimChar) == 0;
    assert Trim(name) == name;
    EnvFirstNonNullWins(name, env, parse, 0);
  }

  // ----- !map -----

  /**
   * A parsed `!map` template: a plain value, a tagged scalar (its tag and
   * its text) or a mapping/sequence of templates.
   */
  datatype Template =
    | Lit(value: Value)
    | Tag(tag: string, arg: string)
    | Node(entries: seq<(Key, Template)>)

  /** The YAML parser applied to a template's text. */
  type TemplateParser = string -> Result<Template, Exception>

  /**
   * What the root tree's objects answer: `$obj->{$name}` and the items
   * `foreach` visits, both keyed by the object's handle.
   */
  datatype Objects = Objects(prop: (nat, string) -> Value, items: nat -> seq<Value>)

  /**
   * Why a `!map` expansion failed: an unreachable path, a template parse
   * error the callback caught and remapped, or one it did not catch.
   */
  datatype MapError =
    | Unreachable(path: string, segment: string)
    | TemplateError(derivation: Derivation)
    | Escaped(error: Exception)

  /** The class of the exception the callback throws. */
  function MapErrorKind(err: MapError): ExceptionClass {
    match err
    case Unreachable(_, _) => RuntimeException
    case TemplateError(d) => if d.Remapped? then d.error.kind else d.original.kind
    case Escaped(e) => e.kind
  }

  /** The message of the exception the callback throws. */
  function MapErrorMessage(err: MapError): string {
    match err
    case Unreachable(path, segment) =>
      "!map: cannot reach path " + path + " because " + segment + " is not inside an array/object"
    case TemplateError(d) => if d.Remapped? then d.error.message else d.original.message
    case Escaped(e) => e.message
  }

  /** An unreachable path raises a runtime exception whose message names the path and the segment. */
  lemma UnreachableMessage(path: string, segment: string)
    ensures MapErrorKind(Unreachable(path, segment)) == RuntimeException
    ensures var m := MapErrorMessage(Unreachable(path, segment));
      OccursAt(m, path, 24) && OccursAt(m, segment, 24 + |path| + 9)
  {
    var pre, mid, post := "!map: cannot reach path ", " because ", " is not inside an array/object";
    var m := pre + path + mid + segment + post;
    assert |pre| == 24 && |mid| == 9;
    assert m[24..24 + |path|] == path;
    assert m[24 + |path| + 9..24 + |path| + 9 + |segment|] == segment;
  }

  /** What `catch (\ErrorException $e)` does with a template parse error: remap it, or let it escape. */
  function CaughtTemplateError(e: Exception): (err: MapError)
    ensures err.TemplateError? <==> e.kind == ErrorException
    ensures err.Escaped? ==> err.error == e
  {
    if e.kind == ErrorException then TemplateError(Derive(e)) else Escaped(e)
  }

  /**
   * preg_split('~\s+~', s, 2): the text before the first run of white space
   * and, when there is one, the text after it.
   */
  function SplitAtWhitespace(s: string): (r: (string, Option<string>))
    ensures forall i :: 0 <= i < |r.0| ==> !IsSpace(r.0[i])
    ensures r.1.None? ==> r.0 == s
    ensures r.1.Some? ==> var t := r.1.value;
      |r.0| + |t| < |s| && s[..|r.0|] == r.0 && s[|s| - |t|..] == t
      && (forall i :: |r.0| <= i < |s| - |t| ==> IsSpace(s[i]))
      && (t == [] || !IsSpace(t[0]))
  {
    var n := CountLeading(s, NotSpace);
    if n == |s| then (s, None)
    else
      var rest := s[n..];
      var m := CountLeading(rest, IsSpace);
      assert s[|s| - |rest[m..]|..] == rest[m..];
      (s[..n], Some(rest[m..]))
  }

  /** A path and a template joined by one space split back into the two. */
  lemma SplitAtSpace(path: string, template: string)
    requires forall i :: 0 <= i < |path| ==> !IsSpace(path[i])
    requires template == [] || !IsSpace(template[0])
    ensures SplitAtWhitespace(path + " " + template) == (path, Some(template))
  {
    var s := path + " " + template;
    assert s[|path|] == ' ';
    var n := CountLeading(s, NotSpace);
    assert n == |path|;
    var rest := s[n..];
    assert rest == " " + template;
    assert rest[1..] == template;
    assert CountLeading(rest, IsSpace) == 1 by {
      assert CountLeading(rest, IsSpace) == 1 + CountLeading(template, IsSpace);
    }
    assert s[..n] == path;
  }

  /** The text parsed as the template: a missing template is the empty string. */
  function TemplateText(t: Option<string>): string {
    if t.Some? then t.value else ""
  }

  /**
   * Walks the remaining segments: an array is indexed (a missing key gives
   * null), an object is asked for the property, anything else stops the
   * walk with an error naming the segment.
   */
  function WalkPath(el: Value, path: string, segs: seq<string>, objects: Objects): (r: Result<Value, MapError>)
    ensures r.Failure? ==> r.error.Unreachable? && r.error.path == path && r.error.segment in segs
    decreases |segs|
  {
    if segs == [] then Success(el)
    else
      match el
      case Arr(es) => WalkPath(OrNull(Lookup(es, KeyOf(segs[0]))), path, segs[1..], objects)
      case Object(h) => WalkPath(objects.prop(h, segs[0]), path, segs[1..], objects)
      case _ => Failure(Unreachable(path, segs[0]))
  }

  /** Walking `xs + ys` is walking `xs`, then walking `ys` from where it ended. */
  lemma {:induction false} WalkAppend(el: Value, path: string, xs: seq<string>, ys: seq<string>, objects: Objects)
    ensures WalkPath(el, path, xs + ys, objects) ==
      match WalkPath(el, path, xs, objects)
      case Success(v) => WalkPath(v, path, ys, objects)
      case Failure(err) => Failure(err)
    decreases |xs|
  {
    if xs == [] {
      assert xs + ys == ys;
    } else {
      assert (xs + ys)[0] == xs[0];
      assert (xs + ys)[1..] == xs[1..] + ys;
      match el
      case Arr(es) => WalkAppend(OrNull(Lookup(es, KeyOf(xs[0]))), path, xs[1..], ys, objects);
      case Object(h) => WalkAppend(objects.prop(h, xs[0]), path, xs[1..], ys, objects);
      case _ =>
    }
  }

  /** What `foreach ($el as $item)` visits: array values, an object's items, nothing otherwise. */
  function Items(el: Value, objects: Objects): (items: seq<Value>)
    ensures el.Arr? ==> |items| == |el.entries| && forall i :: 0 <= i < |items| ==> items[i] == el.entries[i].1
    ensures !el.Arr? && !el.Object? ==> items == []
  {
    match el
    case Arr(es) => seq(|es|, i requires 0 <= i < |es| => es[i].1)
    case Object(h) => objects.items(h)
    case _ => []
  }

  /**
   * The string PHP makes of an item for explode(): null and false are
   * empty, true is "1", an integer is its decimal form; arrays and objects
   * have none.
   */
  function ItemText(item: Value): (r: Option<string>)
    ensures r.None? <==> item.Arr? || item.Object?
    ensures item.Str? ==> r == Some(item.s)
  {
    match item
    case Null => Some("")
    case Bool(b) => Some(if b then "1" else "")
    case Int(i) => Some(if i < 0 then "-" + NatToDecimal(-i) else NatToDecimal(i))
    case Str(s) => Some(s)
    case _ => None
  }

  /** `!item[host]`: the item's text before its first colon. */
  function ItemHost(item: Value): (r: Value)
    ensures r.Null? <==> ItemText(item).None?
    ensures r.Str? ==> r.s <= ItemText(item).value && ':' !in r.s
  {
    match ItemText(item)
    case Some(t) =>
      var h := Explode(":", t)[0];
      ExplodeFirstIsPrefix(":", t);
      ExplodePiecesAreFree(":", t);
      assert ':' !in h by {
        forall i | 0 <= i < |h| ensures h[i] != ':' {
          assert !OccursAt(h, ":", i);
          assert h[i..i + 1] == [h[i]];
        }
      }
      Str(h)
    case None => Null
  }

  /** `!item[port]`: the int cast of the second colon field, else of the default. */
  function ItemPort(item: Value, default: string): (r: Value)
    ensures r.Int?
    ensures ItemText(item).None? || ':' !in ItemText(item).value ==> r == Int(IntCast(default))
  {
    match ItemText(item)
    case Some(t) =>
      var fields := Explode(":", t);
      ExplodeSingle(":", t);
      Int(IntCast(if |fields| > 1 then fields[1] else default))
    case None => Int(IntCast(default))
  }

  /** The value a tagged scalar of the template takes for one item. */
  function TagValue(tag: string, arg: string, item: Value): (r: Value)
    ensures tag == "!item[port]" ==> r.Int?
    ensures tag == "!item[host]" ==> (r.Null? <==> ItemText(item).None?)
  {
    if tag == "!item" then item
    else if tag == "!item[host]" then ItemHost(item)
    else if tag == "!item[port]" then ItemPort(item, arg)
    else Str(arg)
  }

  /** The template with every tagged scalar replaced by its value for `item`. */
  function Expand(t: Template, item: Value): (r: Value)
    ensures t.Node? ==>
              r.Arr? && |r.entries| == |t.entries|
              && forall i :: 0 <= i < |t.entries| ==> r.entries[i].0 == t.entries[i].0
    decreases t
  {
    match t
    case Lit(v) => v
    case Tag(tag, arg) => TagValue(tag, arg, item)
    case Node(es) => Arr(seq(|es|, i requires 0 <= i < |es| => (es[i].0, Expand(es[i].1, item))))
  }

  /** One expansion per item, keyed 0, 1, ... in item order. */
  function Expansions(items: seq<Value>, t: Template): PArray {
    seq(|items|, i requires 0 <= i < |items| => (IntKey(i), Expand(t, items[i])))
  }

  lemma ExpansionsStep(items: seq<Value>, t: Template, i: nat)
    requires i < |items|
    ensures Expansions(items[..i + 1], t) == Expansions(items[..i], t) + [(IntKey(i), Expand(t, items[i]))]
  {
    var l := Expansions(items[..i + 1], t);
    var r := Expansions(items[..i], t) + [(IntKey(i), Expand(t, items[i]))];
    forall j | 0 <= j < |l| ensures l[j] == r[j] {
      if j < i {
        assert items[..i + 1][j] == items[..i][j];
      }
    }
  }

  /** The result of `!map str`, evaluated against the root tree. */
  function MapValue(str: string, root: Value, objects: Objects, parseTemplate: TemplateParser): (r: Result<Value, MapError>)
    ensures r.Success? ==> r.value.Arr? && forall i :: 0 <= i < |r.value.entries| ==> r.value.entries[i].0 == IntKey(i)
    ensures r.Failure? && r.error.Unreachable? ==>
      r.error.path == SplitAtWhitespace(str).0 && r.error.segment in Explode("/", SplitAtWhitespace(str).0)
    ensures r.Failure? && !r.error.Unreachable? ==> parseTemplate(TemplateText(SplitAtWhitespace(str).1)).Failure?
  {
    var args := SplitAtWhitespace(str);
    match WalkPath(root, args.0, Explode("/", args.0), objects)
    case Failure(err) => Failure(err)
    case Success(el) =>
      var items := Items(el, objects);
      if items == [] then Success(Arr([]))
      else
        match parseTemplate(TemplateText(args.1))
        case Failure(e) => Failure(CaughtTemplateError(e))
        case Success(t) => Success(Arr(Expansions(items, t)))
  }

  /**
   * callbackMap: walk the path from the root, then parse the template once
   * per item and collect the results in a list.
   */
  method CallbackMap(str: string, root: Value, objects: Objects, parseTemplate: TemplateParser)
    returns (r: Result<Value, MapError>)
    ensures r == MapValue(str, root, objects, parseTemplate)
  {
    var args := SplitAtWhitespace(str);
    var path := args.0;
    var segs := Explode("/", path);
    var el := root;
    var k := 0;
    while k < |segs|
      invariant 0 <= k <= |segs|
      invariant WalkPath(el, path, segs[k..], objects) == WalkPath(root, path, segs, objects)
    {
      var name := segs[k];
      assert segs[k..][1..] == segs[k + 1..];
      match el {
        case Arr(es) => el := OrNull(Lookup(es, KeyOf(name)));
        case Object(h) => el := objects.prop(h, name);
        case _ => return Failure(Unreachable(path, name));
      }
      k := k + 1;
    }
    assert segs[k..] == [];
    var items := Items(el, objects);
    var ret: PArray := [];
    var i := 0;
    while i < |items|
      invariant 0 <= i <= |items|
      invariant i == 0 ==> ret == []
      invariant i > 0 ==> (parseTemplate(TemplateText(args.1)).Success?
        && ret == Expansions(items[..i], parseTemplate(TemplateText(args.1)).value))
    {
      var parsed := parseTemplate(TemplateText(args.1));
      match parsed {
        case Failure(e) =>
          if e.kind == ErrorException {
            var d := DeriveFromError(e);
            return Failure(TemplateError(d));
          }
          return Failure(Escaped(e));
        case Success(t) =>
          ExpansionsStep(items, t, i);
          ret := ret + [(IntKey(i), Expand(t, items[i]))];
      }
      i := i + 1;
    }
    assert items[..i] == items;
    return Success(Arr(ret));
  }

  /**
   * A walk that reaches a value that is neither an array nor an object
   * with segments left fails naming the next segment.
   */
  lemma MapUnreachable(str: string, root: Value, objects: Objects, parseTemplate: TemplateParser, k: nat, el: Value)
    requires var path := SplitAtWhitespace(str).0;
      k < |Explode("/", path)| && WalkPath(root, path, Explode("/", path)[..k], objects) == Success(el)
    requires !el.Arr? && !el.Object?
    ensures var path := SplitAtWhitespace(str).0;
      MapValue(str, root, objects, parseTemplate) == Failure(Unreachable(path, Explode("/", path)[k]))
  {
    var path := SplitAtWhitespace(str).0;
    var segs := Explode("/", path);
    assert segs == segs[..k] + segs[k..];
    WalkAppend(root, path, segs[..k], segs[k..], objects);
  }

  /** Nothing to iterate: the result is an empty list and the template is never parsed. */
  lemma MapNoItems(str: string, root: Value, objects: Objects, parseTemplate: TemplateParser, el: Value)
    requires var path := SplitAtWhitespace(str).0;
      WalkPath(root, path, Explode("/", path), objects) == Success(el)
    requires Items(el, objects) == []
    ensures MapValue(str, root, objects, parseTemplate) == Success(Arr([]))
  {
  }

  /**
   * A template that does not parse raises, once there is an item: a parser
   * error is remapped, any other exception escapes unchanged.
   */
  lemma MapTemplateError(str: string, root: Value, objects: Objects, parseTemplate: TemplateParser, el: Value, e: Exception)
    requires var path := SplitAtWhitespace(str).0;
      WalkPath(root, path, Explode("/", path), objects) == Success(el)
    requires Items(el, objects) != []
    requires parseTemplate(TemplateText(SplitAtWhitespace(str).1)) == Failure(e)
    ensures MapValue(str, root, objects, parseTemplate) ==
      Failure(if e.kind == ErrorException then TemplateError(Derive(e)) else Escaped(e))
  {
  }

  /** `!item[host]` is the text before the first colon, or the whole text when there is none. */
  lemma ItemHostOfText(h: string, rest: string)
    requires ':' !in h
    ensures ItemHost(Str(h + ":" + rest)) == Str(h)
    ensures ItemHost(Str(h)) == Str(h)
  {
    FirstCharAbsent(":", h);
    ExplodeAtFirst(":", h, rest);
    ExplodeWithout(":", h);
  }

  /** `!item[port]` is the number after the colon, or the default when there is no colon. */
  lemma ItemPortOfText(h: string, n: nat, default: string)
    requires ':' !in h
    ensures ItemPort(Str(h + ":" + NatToDecimal(n)), default) == Int(n)
    ensures ItemPort(Str(h), default) == Int(IntCast(default))
  {
    var d := NatToDecimal(n);
    assert ':' !in d by {
      forall i | 0 <= i < |d| ensures d[i] != ':' {
        assert IsDigit(d[i]);
      }
    }
    FirstCharAbsent(":", h);
    FirstCharAbsent(":", d);
    ExplodeAtFirst(":", h, d);
    ExplodeWithout(":", d);
    IntCastDecimal(n);
    ExplodeWithout(":", h);
  }

  /** The list `["a:1", "b"]`. */
  function HostsList(): Value {
    Arr([(IntKey(0), Str("a:1")), (IntKey(1), Str("b"))])
  }

  /** The root configuration object, handle 0, whose `hosts` property is the list. */
  predicate HostsRoot(objects: Objects) {
    objects.prop(0, "hosts") == HostsList()
  }

  /** With items and a template, the result lists one expansion per item. */
  lemma MapExpands(str: string, root: Value, objects: Objects, parseTemplate: TemplateParser, el: Value, t: Template)
    requires var path := SplitAtWhitespace(str).0;
      WalkPath(root, path, Explode("/", path), objects) == Success(el)
    requires Items(el, objects) != []
    requires parseTemplate(TemplateText(SplitAtWhitespace(str).1)) == Success(t)
    ensures MapValue(str, root, objects, parseTemplate) == Success(Arr(Expansions(Items(el, objects), t)))
  {
  }

  /** The list under `hosts`, as `!map hosts ...` finds it. */
  lemma HostsWalk(objects: Objects)
    requires HostsRoot(objects)
    ensures WalkPath(Object(0), "hosts", Explode("/", "hosts"), objects) == Success(HostsList())
    ensures Items(HostsList(), objects) == [Str("a:1"), Str("b")]
  {
    FirstCharAbsent("/", "hosts");
    ExplodeWithout("/", "hosts");
  }

  lemma HostSplit()
    ensures SplitAtWhitespace("hosts !item[host]") == ("hosts", Some("!item[host]"))
  {
    var s, path, t := "hosts !item[host]", "hosts", "!item[host]";
    assert s[5] == ' ';
    assert |s| == 17 && s[..5] == path && s[6..] == t;
    assert s == path + " " + t;
    SplitAtSpace(path, t);
  }

  lemma PortSplit()
    ensures SplitAtWhitespace("hosts !item[port] 80") == ("hosts", Some("!item[port] 80"))
  {
    var s, path, t := "hosts !item[port] 80", "hosts", "!item[port] 80";
    assert s[5] == ' ';
    assert |s| == 20 && s[..5] == path && s[6..] == t;
    assert s == path + " " + t;
    SplitAtSpace(path, t);
  }

  lemma HostExpansions()
    ensures Expansions([Str("a:1"), Str("b")], Tag("!item[host]", "")) == [(IntKey(0), Str("a")), (IntKey(1), Str("b"))]
  {
    ItemHostOfText("a", "1");
    assert "a" + ":" + "1" == "a:1";
    ItemHostOfText("b", "");
  }

  lemma PortExpansions()
    ensures Expansions([Str("a:1"), Str("b")], Tag("!item[port]", "80")) == [(IntKey(0), Int(1)), (IntKey(1), Int(80))]
  {
    var a, b, d := Str("a:1"), Str("b"), "80";
    ExpansionsOfTwo(a, b, Tag("!item[port]", d));
    PortTag(a, d);
    PortTag(b, d);
    PortWithColon();
    PortWithoutColon();
  }

  lemma ExpansionsOfTwo(a: Value, b: Value, t: Template)
    ensures Expansions([a, b], t) == [(IntKey(0), Expand(t, a)), (IntKey(1), Expand(t, b))]
  {
  }

  lemma PortTag(item: Value, d: string)
    ensures Expand(Tag("!item[port]", d), item) == ItemPort(item, d)
  {
    var port, host := "!item[port]", "!item[host]";
    assert |port| == 11 && port[6] == 'p' && host[6] == 'h';
    assert port != "!item" && port != host;
  }

  lemma PortWithColon()
    ensures ItemPort(Str("a:1"), "80") == Int(1)
  {
    var s, h, d := "a:1", "a", "80";
    var dn := NatToDecimal(1);
    assert dn == [DigitChar(1)] && DigitChar(1) == '1';
    assert |s| == 3 && s[..1] == h && s[1] == ':' && s[2..] == dn;
    assert s == h + ":" + dn;
    ItemPortOfText(h, 1, d);
  }

  lemma PortWithoutColon()
    ensures ItemPort(Str("b"), "80") == Int(80)
  {
    Decimals();
    ItemPortOfText("b", 0, "80");
    IntCastDecimal(80);
  }

  lemma Decimals()
    ensures NatToDecimal(1) == "1" && NatToDecimal(80) == "80"
  {
    assert DigitChar(8) == '8' && DigitChar(0) == '0';
    assert NatToDecimal(80) == NatToDecimal(8) + [DigitChar(0)];
  }

  /** `!map hosts !item[host]` from a root whose `hosts` is ["a:1", "b"] gives ["a", "b"]. */
  lemma MapHostExample(objects: Objects, parseTemplate: TemplateParser)
    requires HostsRoot(objects)
    requires parseTemplate("!item[host]") == Success(Tag("!item[host]", ""))
    ensures MapValue("hosts !item[host]", Object(0), objects, parseTemplate)
      == Success(Arr([(IntKey(0), Str("a")), (IntKey(1), Str("b"))]))
  {
    HostsWalk(objects);
    HostSplit();
    var t := Tag("!item[host]", "");
    MapExpands("hosts !item[host]", Object(0), objects, parseTemplate,
      HostsList(), t);
    HostExpansions();
  }

  /** `!map hosts !item[port] 80` from a root whose `hosts` is ["a:1", "b"] gives [1, 80]. */
  lemma MapPortExample(objects: Objects, parseTemplate: TemplateParser)
    requires HostsRoot(objects)
    requires parseTemplate("!item[port] 80") == Success(Tag("!item[port]", "80"))
    ensures MapValue("hosts !item[port] 80", Object(0), objects, parseTemplate)
      == Success(Arr([(IntKey(0), Int(1)), (IntKey(1), Int(80))]))
  {
    HostsWalk(objects);
    PortSplit();
    var t := Tag("!item[port]", "80");
    MapExpands("hosts !item[port] 80", Object(0), objects, parseTemplate,
      HostsList(), t);
    PortExpansions();
  }
}
