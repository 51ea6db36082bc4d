/** Guards on workflow transitions: a predicate language over JSON, evaluated under an operation budget. */
module Guard {
  import opened Options
  import opened Collections

  datatype Json =
    | Null
    | Bool(b: bool)
    | Num(n: real)
    | Str(s: string)
    | Arr(items: seq<Json>)
    | Obj(fields: map<string, Json>)

  // ----- structural equality

  /** Equality as the interpreter decides it: by kind, then element by element or key by key. */
  predicate JsonEquals(a: Json, b: Json)
    decreases a
  {
    match (a, b)
    case (Arr(x), Arr(y)) =>
      |x| == |y| && forall i :: 0 <= i < |x| ==> JsonEquals(x[i], y[i])
    case (Obj(x), Obj(y)) =>
      |x.Keys| == |y.Keys| && forall k :: k in x ==> k in y && JsonEquals(x[k], y[k])
    case (Null, Null) => true
    case (Bool(x), Bool(y)) => x == y
    case (Num(x), Num(y)) => x == y
    case (Str(x), Str(y)) => x == y
    case _ => false
  }

  /** It decides exactly whether two values are the same, key order aside. */
  lemma {:induction false} JsonEqualsIsEquality(a: Json, b: Json)
    ensures JsonEquals(a, b) <==> a == b
    decreases a
  {
    match (a, b)
    case (Arr(x), Arr(y)) =>
      if |x| == |y| {
        forall i | 0 <= i < |x|
          ensures JsonEquals(x[i], y[i]) <==> x[i] == y[i]
        {
          JsonEqualsIsEquality(x[i], y[i]);
        }
      }
    case (Obj(x), Obj(y)) =>
      forall k | k in x && k in y
        ensures JsonEquals(x[k], y[k]) <==> x[k] == y[k]
      {
        JsonEqualsIsEquality(x[k], y[k]);
      }
      if JsonEquals(a, b) {
        SameKeys(x.Keys, y.Keys);
        assert x == y;
      }
    case _ =>
  }

  lemma SameKeys(a: set<string>, b: set<string>)
    requires a <= b && |a| == |b|
    ensures a == b
  {
    if x :| x in b && x !in a {
      SubsetCard(a, b, x);
    }
  }

  // ----- paths

  predicate WordChar(c: char)
  {
    'A' <= c <= 'Z' || 'a' <= c <= 'z' || '0' <= c <= '9' || c == '_'
  }

  /** By character code: digits, capitals, the underscore, small letters. */
  lemma WordChars(c: char)
    ensures WordChar(c) <==> var x := c as int; 48 <= x <= 57 || 65 <= x <= 90 || x == 95 || 97 <= x <= 122
  {
  }

  predicate Word(part: string)
  {
    part != "" && forall i :: 0 <= i < |part| ==> WordChar(part[i])
  }

  /** The parts between dots; there is always at least one. */
  function Split(path: string): (parts: seq<string>)
    ensures |parts| > 0
  {
    if path == "" then [""]
    else if path[0] == '.' then [""] + Split(path[1..])
    else
      var rest := Split(path[1..]);
      [[path[0]] + rest[0]] + rest[1..]
  }

  /** The parts with dots between them. */
  function Joined(parts: seq<string>): string
    requires |parts| > 0
  {
    if |parts| == 1 then parts[0] else parts[0] + "." + Joined(parts[1..])
  }

  /** Splitting loses nothing: the parts, joined again, are the path. */
  lemma {:induction false} JoinedSplit(path: string)
    ensures Joined(Split(path)) == path
    ensures forall i :: 0 <= i < |Split(path)| ==> '.' !in Split(path)[i]
  {
    if path != "" {
      JoinedSplit(path[1..]);
      var parts, rest := Split(path), Split(path[1..]);
      assert path == [path[0]] + path[1..];
      if path[0] == '.' {
        assert parts[1..] == rest;
        assert Joined(parts) == "" + "." + Joined(rest);
      } else {
        assert parts[1..] == rest[1..] && parts[0] == [path[0]] + rest[0];
        assert Joined(parts) == [path[0]] + Joined(rest);
      }
    }
  }

  /** Only one list of parts without dots gives a path. */
  lemma {:induction false} SplitJoined(parts: seq<string>)
    requires |parts| > 0 && forall i :: 0 <= i < |parts| ==> '.' !in parts[i]
    ensures Split(Joined(parts)) == parts
    decreases |parts|, |parts[0]|
  {
    var path := Joined(parts);
    if parts[0] != "" {
      var shorter := [parts[0][1..]] + parts[1..];
      assert shorter[1..] == parts[1..] && parts[0] == [parts[0][0]] + parts[0][1..];
      SplitJoined(shorter);
      assert path[0] != '.' && path[1..] == Joined(shorter);
    } else if |parts| > 1 {
      SplitJoined(parts[1..]);
      assert path[0] == '.' && path[1..] == Joined(parts[1..]);
    }
  }

  /** The functions every JavaScript object inherits. */
  predicate IsMethod(name: string)
  {
    || name == "constructor" || name == "hasOwnProperty" || name == "isPrototypeOf" || name == "propertyIsEnumerable"
    || name == "toLocaleString" || name == "toString" || name == "valueOf"
    || name == "__defineGetter__" || name == "__defineSetter__"
    || name == "__lookupGetter__" || name == "__lookupSetter__"
  }

  predicate IsAccessor(name: string)
  {
    name == "__proto__"
  }

  predicate Inherited(name: string)
  {
    IsMethod(name) || IsAccessor(name)
  }

  /** The members of the language's object prototype, as section 20.1.3 and annex B.2.2 of ECMA-262 list them. */
  const PROTOTYPE_MEMBERS: seq<string> := [
    "constructor", "hasOwnProperty", "isPrototypeOf", "propertyIsEnumerable", "toLocaleString", "toString", "valueOf",
    "__proto__", "__defineGetter__", "__defineSetter__", "__lookupGetter__", "__lookupSetter__"]

  lemma InheritedNames(name: string)
    ensures Inherited(name) <==> name in PROTOTYPE_MEMBERS
  {
    if Inherited(name) {
      var m := PROTOTYPE_MEMBERS;
      assert name == m[0] || name == m[1] || name == m[2] || name == m[3] || name == m[4] || name == m[5]
             || name == m[6] || name == m[7] || name == m[8] || name == m[9] || name == m[10] || name == m[11];
    }
  }

  /** What a property read gives: a value of the document, an inherited function, the prototype object, or nothing. */
  datatype Found = Own(value: Json) | Method | Prototype | Missing

  /** One property read; own properties hide inherited ones, and only objects have any. */
  function Property(cur: Found, name: string): Found
  {
    if cur.Own? && cur.value.Obj? && name in cur.value.fields then Own(cur.value.fields[name])
    else if !((cur.Own? && cur.value.Obj?) || cur.Prototype?) then Missing
    else if IsMethod(name) then Method
    else if !IsAccessor(name) then Missing
    else if cur.Prototype? then Own(Null)
    else Prototype
  }

  /** What is found at a path of words. */
  function Resolve(cur: Found, parts: seq<string>): Found
    decreases |parts|
  {
    if parts == [] || cur.Missing? then cur
    else if Word(parts[0]) then Resolve(Property(cur, parts[0]), parts[1..])
    else Missing
  }

  method GetPath(root: Json, path: string) returns (v: Found)
    ensures v == Resolve(Own(root), Split(path))
  {
    var parts := Split(path);
    v := Own(root);
    for i := 0 to |parts|
      invariant !v.Missing? && Resolve(v, parts[i..]) == Resolve(Own(root), parts)
    {
      assert parts[i..][0] == parts[i] && parts[i..][1..] == parts[i + 1..];
      if !Word(parts[i]) {
        return Missing;
      }
      v := Property(v, parts[i]);
      if v.Missing? {
        return Missing;
      }
    }
    assert parts[|parts|..] == [];
  }

  /** The value at a path through own properties, if there is one. */
  function Lookup(root: Json, parts: seq<string>): Option<Json>
    decreases |parts|
  {
    if parts == [] then Some(root)
    else if Word(parts[0]) && root.Obj? && parts[0] in root.fields then Lookup(root.fields[parts[0]], parts[1..])
    else None
  }

  /** What is found at the path is the value there through own properties, or nothing when there is none. */
  ghost predicate Plain(root: Json, parts: seq<string>)
  {
    Resolve(Own(root), parts) == match Lookup(root, parts) case Some(v) => Own(v) case None => Missing
  }

  /** Words throughout, and the last one is inherited. */
  ghost predicate EndsInherited(parts: seq<string>)
  {
    && parts != [] && Inherited(parts[|parts| - 1])
    && forall i :: 0 <= i < |parts| ==> Word(parts[i])
  }

  lemma MethodsAndAccessor(name: string)
    ensures !(IsMethod(name) && IsAccessor(name))
  {
    assert IsAccessor(name) ==> |name| == 9 && name[2] == 'p';
  }

  /** Functions and values that are not objects have no properties. */
  lemma NothingBehind(cur: Found, parts: seq<string>)
    requires parts != [] && !cur.Prototype? && !(cur.Own? && cur.value.Obj?)
    ensures Resolve(cur, parts) == Missing
  {
    assert Property(cur, parts[0]) == Missing;
  }

  /** Behind the prototype object there are only inherited names, and nothing behind them. */
  lemma BehindPrototype(parts: seq<string>)
    requires parts != [] && !EndsInherited(parts)
    ensures Resolve(Prototype, parts) == Missing
  {
    var next := Property(Prototype, parts[0]);
    if !Word(parts[0]) {
      assert Resolve(Prototype, parts) == Missing;
    } else if |parts| == 1 {
      assert parts[|parts| - 1] == parts[0] && !Inherited(parts[0]);
      assert Resolve(next, parts[1..]) == next;
    } else {
      NothingBehind(next, parts[1..]);
    }
  }

  /** A part less leaves the end as it was. */
  lemma EndOfRest(parts: seq<string>)
    requires |parts| > 1 && Word(parts[0])
    ensures EndsInherited(parts[1..]) <==> EndsInherited(parts)
  {
    var rest := parts[1..];
    assert rest[|rest| - 1] == parts[|parts| - 1];
    assert forall i :: 1 <= i < |parts| ==> parts[i] == rest[i - 1];
  }

  lemma {:induction false} PlainUnlessInherited(root: Json, parts: seq<string>)
    requires !EndsInherited(parts)
    ensures Plain(root, parts)
    decreases |parts|
  {
    if parts == [] || !Word(parts[0]) || !root.Obj? {
    } else if |parts| == 1 {
      assert parts[|parts| - 1] == parts[0] && !Inherited(parts[0]);
      assert parts[1..] == [];
    } else {
      EndOfRest(parts);
      if parts[0] in root.fields {
        PlainUnlessInherited(root.fields[parts[0]], parts[1..]);
      } else {
        var next := Property(Own(root), parts[0]);
        if next.Prototype? {
          BehindPrototype(parts[1..]);
        } else {
          NothingBehind(next, parts[1..]);
        }
      }
    }
  }

  /** Objects inside each other along the path, the innermost empty. */
  function Nested(names: seq<string>): Json
  {
    if names == [] then Obj(map[]) else Obj(map[names[0] := Nested(names[1..])])
  }

  /** In that document an inherited last name is found although no own property is there. */
  lemma {:induction false} NestedFindsInherited(parts: seq<string>)
    requires EndsInherited(parts)
    ensures Resolve(Own(Nested(parts[..|parts| - 1])), parts) ==
            if IsMethod(parts[|parts| - 1]) then Method else Prototype
    ensures Lookup(Nested(parts[..|parts| - 1]), parts) == None
    decreases |parts|
  {
    var front := parts[..|parts| - 1];
    if |parts| == 1 {
      MethodsAndAccessor(parts[0]);
      assert parts[1..] == [];
    } else {
      EndOfRest(parts);
      NestedFindsInherited(parts[1..]);
      assert front[1..] == parts[1..][..|parts| - 2];
      assert Nested(front).fields[parts[0]] == Nested(front[1..]);
    }
  }

  /** What is behind an object's prototype: the prototype object, whose own prototype is null, and its functions. */
  lemma PrototypeChain(fields: map<string, Json>, name: string)
    requires "__proto__" !in fields && IsMethod(name)
    ensures Resolve(Own(Obj(fields)), ["__proto__"]) == Prototype
    ensures Resolve(Own(Obj(fields)), ["__proto__", "__proto__"]) == Own(Null)
    ensures Word(name) ==> Resolve(Own(Obj(fields)), ["__proto__", name]) == Method
  {
    var obj, proto := Own(Obj(fields)), "__proto__";
    MethodsAndAccessor(proto);
    assert Word(proto);
    assert Property(obj, proto) == Prototype && Property(Prototype, proto) == Own(Null);
    assert [proto, proto][1..] == [proto] && [proto, name][1..] == [name];
    ResolveOne(Prototype, proto);
    ResolveOne(Prototype, name);
    ResolveOne(obj, proto);
  }

  lemma ResolveOne(cur: Found, name: string)
    ensures !cur.Missing? && Word(name) ==> Resolve(cur, [name]) == Property(cur, name)
  {
    assert [name][1..] == [];
  }

  /** A path means the own value there, in every document, exactly when it does not end in an inherited name. */
  lemma PlainIff(parts: seq<string>)
    ensures (forall root :: Plain(root, parts)) <==> !EndsInherited(parts)
  {
    if EndsInherited(parts) {
      NestedFindsInherited(parts);
      assert !Plain(Nested(parts[..|parts| - 1]), parts);
    } else {
      forall root
        ensures Plain(root, parts)
      {
        PlainUnlessInherited(root, parts);
      }
    }
  }

  /** In particular a path without inherited names finds own properties and nothing else. */
  lemma OwnPathsOnly(root: Json, parts: seq<string>)
    requires forall i :: 0 <= i < |parts| ==> !Inherited(parts[i])
    ensures Plain(root, parts)
  {
    PlainIff(parts);
  }

  // ----- predicates

  datatype Comparison = LessThan | AtMost | GreaterThan | AtLeast

  datatype Pred =
    | And(args: seq<Pred>)
    | Or(args: seq<Pred>)
    | Not(arg: Pred)
    | Exists(path: string)
    | Eq(path: string, value: Json)
    | In(path: string, values: seq<Json>)
    | Compare(cmp: Comparison, path: string, bound: real)

  predicate Compares(cmp: Comparison, v: real, bound: real)
  {
    match cmp
    case LessThan => v < bound
    case AtMost => v <= bound
    case GreaterThan => v > bound
    case AtLeast => v >= bound
  }

  /** What a predicate means, with no budget in sight. */
  predicate Holds(p: Pred, root: Json)
  {
    match p
    case And(args) => forall i :: 0 <= i < |args| ==> Holds(args[i], root)
    case Or(args) => exists i :: 0 <= i < |args| && Holds(args[i], root)
    case Not(arg) => !Holds(arg, root)
    case Exists(path) => !At(root, path).Missing?
    case Eq(path, value) => Equals(At(root, path), value)
    case In(path, values) => exists x :: x in values && Equals(At(root, path), x)
    case Compare(cmp, path, bound) =>
      At(root, path).Own? && At(root, path).value.Num? && Compares(cmp, At(root, path).value.n, bound)
  }

  function At(root: Json, path: string): Found
  {
    Resolve(Own(root), Split(path))
  }

  /**
   * A function equals no document; the prototype object, having no keys of its own to list, equals the empty object.
   */
  predicate Equals(found: Found, value: Json)
  {
    match found
    case Own(v) => v == value
    case Prototype => value == Obj(map[])
    case _ => false
  }

  /** The predicates a short-circuit evaluation visits. */
  function Ops(p: Pred, root: Json): nat
    decreases p, 1
  {
    match p
    case And(args) => 1 + OpsUntil(args, root, false)
    case Or(args) => 1 + OpsUntil(args, root, true)
    case Not(arg) => 1 + Ops(arg, root)
    case _ => 1
  }

  /** Those visited among `args` when the first one with the value `stop` ends the scan. */
  function OpsUntil(args: seq<Pred>, root: Json, stop: bool): nat
    decreases args, 0
  {
    if args == [] then 0
    else Ops(args[0], root) + if Holds(args[0], root) == stop then 0 else OpsUntil(args[1..], root, stop)
  }

  /** Some argument has the value that ends the scan. */
  ghost predicate Decided(args: seq<Pred>, root: Json, stop: bool)
  {
    exists i :: 0 <= i < |args| && Holds(args[i], root) == stop
  }

  lemma OpsUntilNext(args: seq<Pred>, i: nat, root: Json, stop: bool)
    requires i < |args|
    ensures OpsUntil(args[i..], root, stop) ==
            Ops(args[i], root) + if Holds(args[i], root) == stop then 0 else OpsUntil(args[i + 1..], root, stop)
  {
    assert args[i..][0] == args[i] && args[i..][1..] == args[i + 1..];
  }

  // ----- the interpreter

  /** A value, or the exception that the budget is used up. */
  datatype Outcome = Value(b: bool) | Aborted

  /** What an evaluation must produce from a counter at `used`: the meaning within budget, an abort otherwise. */
  ghost predicate Correct(meaning: bool, ops: nat, used: nat, maxOps: nat, r: Outcome, used': nat)
  {
    if used + ops <= maxOps then r == Value(meaning) && used' == used + ops
    else r == Aborted && used' == maxOps + 1
  }

  /** The captured counter and the budget. */
  class Interpreter {
    const root: Json
    const maxOps: nat
    var usedOps: nat

    constructor (root: Json, maxOps: nat)
      ensures this.root == root && this.maxOps == maxOps && usedOps == 0
    {
      this.root, this.maxOps, usedOps := root, maxOps, 0;
    }

    method EvalPred(p: Pred) returns (r: Outcome)
      requires usedOps <= maxOps
      modifies this
      ensures Correct(Holds(p, root), Ops(p, root), old(usedOps), maxOps, r, usedOps)
      decreases p, 1
    {
      usedOps := usedOps + 1;
      if usedOps > maxOps {
        return Aborted;
      }
      match p {
        case And(args) =>
          r := EvalArgs(args, false);
          if r.Value? {
            r := Value(!r.b);
          }
        case Or(args) =>
          r := EvalArgs(args, true);
        case Not(arg) =>
          r := EvalPred(arg);
          if r.Value? {
            r := Value(!r.b);
          }
        case Exists(path) =>
          var v := GetPath(root, path);
          r := Value(!v.Missing?);
        case Eq(path, value) =>
          var v := GetPath(root, path);
          var same := FoundEquals(v, value);
          r := Value(same);
        case In(path, values) =>
          var v := GetPath(root, path);
          var found := Among(v, values);
          r := Value(found);
        case Compare(cmp, path, bound) =>
          var v := GetPath(root, path);
          r := Value(v.Own? && v.value.Num? && Compares(cmp, v.value.n, bound));
      }
    }

    /** The loops of "and" and "or": whether some argument has the value `stop`, looking no further than the first. */
    method EvalArgs(args: seq<Pred>, stop: bool) returns (r: Outcome)
      requires usedOps <= maxOps
      modifies this
      ensures Correct(Decided(args, root, stop), OpsUntil(args, root, stop), old(usedOps), maxOps, r, usedOps)
      decreases args, 0
    {
      ghost var used0 := usedOps;
      var i := 0;
      while i < |args|
        invariant 0 <= i <= |args| && usedOps <= maxOps
        invariant forall k :: 0 <= k < i ==> Holds(args[k], root) != stop
        invariant usedOps + OpsUntil(args[i..], root, stop) == used0 + OpsUntil(args, root, stop)
        decreases |args| - i
      {
        OpsUntilNext(args, i, root, stop);
        r := EvalPred(args[i]);
        if r.Aborted? {
          return Aborted;
        }
        if r.b == stop {
          assert Decided(args, root, stop);
          return Value(true);
        }
        i := i + 1;
      }
      assert args[|args|..] == [] && !Decided(args, root, stop);
      r := Value(false);
    }
  }

  method FoundEquals(found: Found, value: Json) returns (same: bool)
    ensures same <==> Equals(found, value)
  {
    match found {
      case Own(v) =>
        JsonEqualsIsEquality(v, value);
        same := JsonEquals(v, value);
      case Prototype => same := value.Obj? && |value.fields.Keys| == 0;
      case _ => same := false;
    }
  }

  method Among(found: Found, values: seq<Json>) returns (some: bool)
    ensures some <==> exists x :: x in values && Equals(found, x)
  {
    for i := 0 to |values|
      invariant forall x :: x in values[..i] ==> !Equals(found, x)
    {
      var same := FoundEquals(found, values[i]);
      if same {
        return true;
      }
    }
    assert values[..|values|] == values;
    some := false;
  }

  function GuardRoot(context: Json, payload: Json): Json
  {
    Obj(map["context" := context, "payload" := payload])
  }

  /** Paths into a guard's document start with the word for the part they look into. */
  lemma RootParts(context: Json, payload: Json, parts: seq<string>)
    requires |parts| > 0
    ensures Lookup(GuardRoot(context, payload), parts) ==
            if parts[0] == "context" then Lookup(context, parts[1..])
            else if parts[0] == "payload" then Lookup(payload, parts[1..])
            else None
  {
    assert "context" != "payload" by {
      assert |"context"| == |"payload"| && "context"[0] != "payload"[0];
    }
    assert Word("context") && Word("payload");
  }

  /** What a comparison means for a number at its path, and that it fails when there is none. */
  lemma ComparisonsMean(root: Json, path: string, bound: real)
    ensures var found := At(root, path);
            if found.Own? && found.value.Num? then
              && (Holds(Compare(LessThan, path, bound), root) <==> found.value.n < bound)
              && (Holds(Compare(AtMost, path, bound), root) <==> found.value.n <= bound)
              && (Holds(Compare(GreaterThan, path, bound), root) <==> found.value.n > bound)
              && (Holds(Compare(AtLeast, path, bound), root) <==> found.value.n >= bound)
            else forall cmp :: !Holds(Compare(cmp, path, bound), root)
  {
  }

  /** The result of a guard as a function: true, and cheap enough. */
  ghost predicate Passes(p: Pred, root: Json, maxOps: nat)
  {
    Holds(p, root) && Ops(p, root) <= maxOps
  }

  /** Passing means true within budget, whatever the shape of the predicate; an exhausted budget never passes. */
  method EvaluatePredicate(p: Pred, context: Json, payload: Json, maxOps: nat) returns (ok: bool, usedOps: nat)
    ensures ok <==> Passes(p, GuardRoot(context, payload), maxOps)
    ensures usedOps == if Ops(p, GuardRoot(context, payload)) <= maxOps then Ops(p, GuardRoot(context, payload))
                       else maxOps + 1
  {
    var run := new Interpreter(GuardRoot(context, payload), maxOps);
    var r := run.EvalPred(p);
    ok := r == Value(true);
    usedOps := run.usedOps;
  }

  /** More budget never turns a pass into a failure, and changes nothing once the predicate fits. */
  lemma BudgetMonotone(p: Pred, root: Json, fewer: nat, more: nat)
    requires fewer <= more
    ensures Passes(p, root, fewer) ==> Passes(p, root, more)
    ensures Ops(p, root) <= fewer ==> (Passes(p, root, fewer) <==> Passes(p, root, more))
  {
  }

  /** Fails closed under negation: with too small a budget, neither a predicate nor its negation passes. */
  lemma FailsClosed(p: Pred, root: Json, maxOps: nat)
    ensures Ops(p, root) > maxOps ==> !Passes(p, root, maxOps) && !Passes(Not(p), root, maxOps)
    ensures !(Passes(p, root, maxOps) && Passes(Not(p), root, maxOps))
  {
  }

  lemma {:induction false} OpsPositive(p: Pred, root: Json)
    ensures 1 <= Ops(p, root) <= Size(p)
    decreases p, 1
  {
    match p
    case And(args) => OpsUntilBound(args, root, false);
    case Or(args) => OpsUntilBound(args, root, true);
    case Not(arg) => OpsPositive(arg, root);
    case _ =>
  }

  lemma {:induction false} OpsUntilBound(args: seq<Pred>, root: Json, stop: bool)
    ensures OpsUntil(args, root, stop) <= SizeAll(args)
    decreases args, 0
  {
    if args == [] {
    } else {
      OpsPositive(args[0], root);
      OpsUntilBound(args[1..], root, stop);
    }
  }

  /** The number of predicates in a predicate. */
  function Size(p: Pred): nat
    decreases p, 1
  {
    match p
    case And(args) => 1 + SizeAll(args)
    case Or(args) => 1 + SizeAll(args)
    case Not(arg) => 1 + Size(arg)
    case _ => 1
  }

  function SizeAll(args: seq<Pred>): nat
    decreases args, 0
  {
    if args == [] then 0 else Size(args[0]) + SizeAll(args[1..])
  }

  /** A budget as large as the predicate always suffices. */
  lemma BudgetOfSizeSuffices(p: Pred, root: Json, maxOps: nat)
    requires Size(p) <= maxOps
    ensures Passes(p, root, maxOps) <==> Holds(p, root)
  {
    OpsPositive(p, root);
  }
}
