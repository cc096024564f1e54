/** The action-creator factory of src/actions.js. A creator is built from an
    action type, an optional list of parameter names and an optional id
    parameter; called with positional arguments it returns
    `{type, status?, payload?}`. The id generator is passed in as the id value
    it would produce. */
module Actions {
  import opened Outcomes
  import opened Strings
  import opened JsValues

  /** The status markers; every status starts with `StatusPrefix`. */
  const SUCCESS: string := "status/success"
  const ERROR: string := "status/error"
  const StatusPrefix: string := "status/"

  /** `isStatusParam(x)`: a string starting with `status/`. */
  predicate IsStatusParam(x: Value)
  {
    x.Str? && StartsWith(x.s, StatusPrefix)
  }

  /** `args[i]`, which reads `undefined` past the end. */
  function Arg(args: seq<Value>, i: nat): (v: Value)
    ensures i < |args| ==> v == args[i]
    ensures i >= |args| ==> v == Undefined
  {
    if i < |args| then args[i] else Undefined
  }

  /** An action: `type`, then `status` and `payload` when present. */
  datatype Action = Action(actionType: string, status: Option<string>, payload: Option<Value>)

  /** A creator as `makeActionCreator(type, params, withId)` configures it:
      `names` is `params` when it is an array, `idParam` the id key (used only
      when truthy). */
  datatype Creator = Creator(actionType: string, names: Option<seq<string>>, idParam: Value)

  // ----------------------------------------------------------------------
  // fromArgs and withParams

  /** `args.slice(0, n).reduce(withParams(names), {})`: every argument with a
      name at its position is written under that name; later writes win. */
  function Reduce(args: seq<Value>, names: seq<string>, n: nat): (props: seq<Prop>)
    requires n <= |args|
    decreases n
  {
    if n == 0 then []
    else
      var acc := Reduce(args, names, n - 1);
      if n - 1 < |names| then Put(acc, names[n - 1], args[n - 1]) else acc
  }

  /** `fromArgs(args, params)`. */
  function FromArgs(args: seq<Value>, names: Option<seq<string>>): Value
  {
    match names
    case Some(ns) => Obj(Reduce(args, ns, |args|))
    case None => Arg(args, 0)
  }

  // ----------------------------------------------------------------------
  // makeActionPayload and withId

  /** The payload before the id is merged in: the second argument after a
      status, nothing for no arguments, `fromArgs` otherwise. */
  function DerivedPayload(args: seq<Value>, names: Option<seq<string>>): Value
  {
    if !IsStatusParam(Arg(args, 0)) then
      if |args| > 0 then FromArgs(args, names) else Undefined
    else Arg(args, 1)
  }

  /** The three shapes `withId` tells apart. */
  datatype PayloadKind = Absent | Scalar | Keyed

  /** `typeof payload`: `'undefined'`, `'object'` (which includes `null`), or
      anything else. */
  function KindOf(payload: Value): PayloadKind
  {
    if payload.Undefined? then Absent
    else if IsObjectType(payload) then Keyed
    else Scalar
  }

  /** `withId(payload, idParam)`, as the value of the `payload` key it spreads
      into the action (`None` for no key). */
  function WithId(payload: Value, idParam: Value, id: Value): Option<Value>
  {
    if Truthy(idParam) then
      var key := ToString(idParam);
      match KindOf(payload)
      case Keyed => Some(Obj(Put(SpreadProps(payload), key, id)))
      case Scalar => Some(Obj(Put([Prop("value", payload)], key, id)))
      case Absent => Some(id)
    else if !payload.Undefined? then Some(payload)
    else None
  }

  /** The creator `makeActionCreator(type, params, withId)` applied to `args`,
      with `id` the value the id generator returns. */
  function CreateAction(c: Creator, args: seq<Value>, id: Value): (a: Action)
    ensures a.actionType == c.actionType
    ensures a.status.Some? <==> IsStatusParam(Arg(args, 0))
    ensures a.status.Some? ==> Str(a.status.value) == args[0]
    ensures a.payload == WithId(DerivedPayload(args, c.names), c.idParam, id)
  {
    var payload := WithId(DerivedPayload(args, c.names), c.idParam, id);
    if IsStatusParam(Arg(args, 0)) then Action(c.actionType, Some(args[0].s), payload)
    else Action(c.actionType, None, payload)
  }

  /** The action as the object the creator returns. */
  function ActionObject(a: Action): (v: Value)
    ensures v.Obj? && DistinctKeys(v.props)
    ensures |v.props| >= 1 && v.props[0] == Prop("type", Str(a.actionType))
    ensures forall i :: 0 <= i < |v.props| ==> v.props[i].key in {"type", "status", "payload"}
    ensures Lookup(v.props, "status") == (if a.status.Some? then Some(Str(a.status.value)) else None)
    ensures Lookup(v.props, "payload") == a.payload
  {
    var t, s, p := "type", "status", "payload";
    assert t != s by { assert t[0] != s[0]; }
    assert t != p by { assert t[0] != p[0]; }
    assert s != p by { assert s[0] != p[0]; }
    var status := if a.status.Some? then [Prop(s, Str(a.status.value))] else [];
    var payload := if a.payload.Some? then [Prop(p, a.payload.value)] else [];
    Obj([Prop(t, Str(a.actionType))] + status + payload)
  }

  // ======================================================================
  // Properties

  /** Both status markers are recognised as statuses, and a status is exactly
      a string with the `status/` prefix. */
  lemma StatusMarkers()
    ensures IsStatusParam(Str(SUCCESS)) && IsStatusParam(Str(ERROR))
    ensures forall s: string :: IsStatusParam(Str(s)) <==> |s| >= 7 && s[..7] == StatusPrefix
  {
    assert SUCCESS[..7] == StatusPrefix;
    assert ERROR[..7] == StatusPrefix;
  }

  /** Without arguments the action is `{type}`, or `{type, payload: id}` when
      ids are generated. */
  lemma NoArguments(c: Creator, id: Value)
    ensures CreateAction(c, [], id) == Action(c.actionType, None, if Truthy(c.idParam) then Some(id) else None)
  {
  }

  /** A status first argument is the status, the second argument the payload,
      and anything after that is ignored; a status alone gives no payload. */
  lemma StatusFirst(c: Creator, args: seq<Value>, id: Value)
    requires |args| >= 1 && IsStatusParam(args[0])
    ensures var a := CreateAction(c, args, id);
      && a.status == Some(args[0].s)
      && a.payload == WithId(Arg(args, 1), c.idParam, id)
      && (!Truthy(c.idParam) ==> (a.payload.Some? <==> |args| >= 2 && !args[1].Undefined?))
      && (!Truthy(c.idParam) && a.payload.Some? ==> a.payload.value == args[1])
      && a == CreateAction(c, args[..if |args| >= 2 then 2 else 1], id)
  {
    var short := args[..if |args| >= 2 then 2 else 1];
    assert short[0] == args[0];
    assert Arg(short, 1) == Arg(args, 1);
  }

  /** The value last written under `k` by the first `n` arguments. */
  function Assigned(args: seq<Value>, names: seq<string>, n: nat, k: string): Option<Value>
    requires n <= |args|
    decreases n
  {
    if n == 0 then None
    else if n - 1 < |names| && names[n - 1] == k then Some(args[n - 1])
    else Assigned(args, names, n - 1, k)
  }

  /** A name is assigned exactly when one of the first `n` names is it, and
      then to the argument at such a position. */
  lemma {:induction false} AssignedMeaning(args: seq<Value>, names: seq<string>, n: nat, k: string)
    requires n <= |args|
    ensures Assigned(args, names, n, k).Some? ==>
      exists i :: 0 <= i < n && i < |names| && names[i] == k && args[i] == Assigned(args, names, n, k).value
    ensures Assigned(args, names, n, k).None? ==> forall i :: 0 <= i < n && i < |names| ==> names[i] != k
    decreases n
  {
    if n > 0 && !(n - 1 < |names| && names[n - 1] == k) {
      AssignedMeaning(args, names, n - 1, k);
    }
  }

  /** Reading a name from the fold gives the value last written under it. */
  lemma {:induction false} ReduceLookup(args: seq<Value>, names: seq<string>, n: nat, k: string)
    requires n <= |args|
    ensures Lookup(Reduce(args, names, n), k) == Assigned(args, names, n, k)
  {
    if n > 0 {
      ReduceLookup(args, names, n - 1, k);
      var acc := Reduce(args, names, n - 1);
      if n - 1 < |names| {
        assert Reduce(args, names, n) == Put(acc, names[n - 1], args[n - 1]);
        PutLookup(acc, names[n - 1], args[n - 1], k);
        if names[n - 1] == k {
          assert Assigned(args, names, n, k) == Some(args[n - 1]);
        } else {
          assert Assigned(args, names, n, k) == Assigned(args, names, n - 1, k);
        }
      } else {
        assert Reduce(args, names, n) == acc;
        assert Assigned(args, names, n, k) == Assigned(args, names, n - 1, k);
      }
    }
  }

  function Min(a: nat, b: nat): nat
  {
    if a <= b then a else b
  }

  lemma DistinctNotInPrefix(names: seq<string>, j: nat)
    requires j < |names|
    requires forall p, q :: 0 <= p < q < |names| ==> names[p] != names[q]
    ensures names[j] !in names[..j]
  {
    forall p | 0 <= p < j ensures names[..j][p] != names[j] {
      assert names[..j][p] == names[p];
    }
  }

  lemma PrefixSnoc<T>(xs: seq<T>, j: nat)
    requires j < |xs|
    ensures xs[..j] + [xs[j]] == xs[..j + 1]
  {
  }

  /** With distinct names, the fold's names are the first `min(n, |names|)`
      names, in order. */
  lemma {:induction false} ReduceKeys(args: seq<Value>, names: seq<string>, n: nat)
    requires n <= |args|
    requires forall i, j :: 0 <= i < j < |names| ==> names[i] != names[j]
    ensures Keys(Reduce(args, names, n)) == names[..Min(n, |names|)]
  {
    if n > 0 {
      ReduceKeys(args, names, n - 1);
      var acc := Reduce(args, names, n - 1);
      if n - 1 < |names| {
        var k := names[n - 1];
        assert Keys(acc) == names[..n - 1];
        DistinctNotInPrefix(names, n - 1);
        PutKeys(acc, k, args[n - 1]);
        PrefixSnoc(names, n - 1);
        assert Reduce(args, names, n) == Put(acc, k, args[n - 1]);
      } else {
        assert Reduce(args, names, n) == acc;
      }
    }
  }

  /** With distinct names, the value written under name `i` is argument `i`. */
  lemma {:induction false} AssignedDistinct(args: seq<Value>, names: seq<string>, n: nat, i: nat)
    requires n <= |args| && i < n && i < |names|
    requires forall p, q :: 0 <= p < q < |names| ==> names[p] != names[q]
    ensures Assigned(args, names, n, names[i]) == Some(args[i])
  {
    if n - 1 != i {
      if n - 1 < |names| {
        assert names[i] != names[n - 1];
      }
      AssignedDistinct(args, names, n - 1, i);
    }
  }

  /** With distinct names, name `i` reads argument `i` for every `i` below both
      lengths, and nothing else is written. */
  lemma NamedValues(args: seq<Value>, names: seq<string>)
    requires forall i, j :: 0 <= i < j < |names| ==> names[i] != names[j]
    ensures var props := Reduce(args, names, |args|);
      && Keys(props) == names[..Min(|args|, |names|)]
      && forall i :: 0 <= i < |args| && i < |names| ==> Lookup(props, names[i]) == Some(args[i])
  {
    ReduceKeys(args, names, |args|);
    forall i | 0 <= i < |args| && i < |names|
      ensures Lookup(Reduce(args, names, |args|), names[i]) == Some(args[i])
    {
      ReduceLookup(args, names, |args|, names[i]);
      AssignedDistinct(args, names, |args|, i);
    }
  }

  /** The fold reads only the first `n` arguments. */
  lemma {:induction false} ReducePrefix(args: seq<Value>, args': seq<Value>, names: seq<string>, n: nat)
    requires n <= |args| && n <= |args'| && args[..n] == args'[..n]
    ensures Reduce(args, names, n) == Reduce(args', names, n)
  {
    if n > 0 {
      assert args[..n - 1] == args'[..n - 1] by {
        assert args[..n - 1] == args[..n][..n - 1];
        assert args'[..n - 1] == args'[..n][..n - 1];
      }
      assert args[n - 1] == args[..n][n - 1] == args'[n - 1];
      ReducePrefix(args, args', names, n - 1);
    }
  }

  /** Arguments past the last name write nothing. */
  lemma {:induction false} ReduceBeyondNames(args: seq<Value>, names: seq<string>, n: nat)
    requires |names| <= n <= |args|
    ensures Reduce(args, names, n) == Reduce(args, names, |names|)
  {
    if n > |names| {
      ReduceBeyondNames(args, names, n - 1);
    }
  }

  /** With distinct names and no status, the derived payload holds argument `i`
      under name `i` for every position the two lists share, in name order;
      without an id key it is the action's payload. */
  lemma NamedPayload(c: Creator, args: seq<Value>, id: Value)
    requires c.names.Some?
    requires forall i, j :: 0 <= i < j < |c.names.value| ==> c.names.value[i] != c.names.value[j]
    requires |args| >= 1 && !IsStatusParam(args[0])
    ensures var p := DerivedPayload(args, c.names);
      var names := c.names.value;
      && p.Obj?
      && Keys(p.props) == names[..Min(|args|, |names|)]
      && (forall i :: 0 <= i < |args| && i < |names| ==> Lookup(p.props, names[i]) == Some(args[i]))
    ensures var a := CreateAction(c, args, id);
      && a.status == None
      && (!Truthy(c.idParam) ==> a.payload == Some(DerivedPayload(args, c.names)))
  {
    NamedValues(args, c.names.value);
  }

  /** With distinct names, no status and an id key, the payload holds the id
      under the key and argument `i` under every other name `i`. */
  lemma NamedPayloadWithId(c: Creator, args: seq<Value>, id: Value)
    requires c.names.Some? && Truthy(c.idParam)
    requires forall i, j :: 0 <= i < j < |c.names.value| ==> c.names.value[i] != c.names.value[j]
    requires |args| >= 1 && !IsStatusParam(args[0])
    ensures var a := CreateAction(c, args, id);
      var names := c.names.value;
      var key := ToString(c.idParam);
      && a.payload.Some? && a.payload.value.Obj?
      && Lookup(a.payload.value.props, key) == Some(id)
      && forall i :: 0 <= i < |args| && i < |names| && names[i] != key ==>
           Lookup(a.payload.value.props, names[i]) == Some(args[i])
  {
    var p := DerivedPayload(args, c.names);
    var names := c.names.value;
    var key := ToString(c.idParam);
    NamedPayload(c, args, id);
    assert KindOf(p) == Keyed && SpreadProps(p) == p.props;
    IdMerge(p, c.idParam, id, key);
    forall i | 0 <= i < |args| && i < |names| && names[i] != key
      ensures Lookup(CreateAction(c, args, id).payload.value.props, names[i]) == Some(args[i])
    {
      IdMerge(p, c.idParam, id, names[i]);
    }
  }

  /** With names and no status, arguments beyond the names are dropped. */
  lemma ExtraArgumentsDropped(c: Creator, args: seq<Value>, id: Value)
    requires c.names.Some? && |c.names.value| >= 1 && |args| > |c.names.value|
    requires !IsStatusParam(args[0])
    ensures CreateAction(c, args, id) == CreateAction(c, args[..|c.names.value|], id)
  {
    var names := c.names.value;
    var short := args[..|names|];
    ReduceBeyondNames(args, names, |args|);
    ReducePrefix(args, short, names, |names|);
    assert short[0] == args[0];
  }

  /** Without names and without a status, the payload is the first argument. */
  lemma UnnamedPayload(c: Creator, args: seq<Value>, id: Value)
    requires c.names.None? && |args| >= 1 && !IsStatusParam(args[0])
    ensures DerivedPayload(args, c.names) == args[0]
    ensures !Truthy(c.idParam) ==> CreateAction(c, args, id).payload == if args[0].Undefined? then None else Some(args[0])
    ensures Truthy(c.idParam) ==> CreateAction(c, args, id).payload == WithId(args[0], c.idParam, id)
  {
  }

  /** `{value: payload, [key]: id}`. */
  lemma ScalarWithId(payload: Value, key: string, id: Value)
    ensures var r := Put([Prop("value", payload)], key, id);
      && Lookup(r, key) == Some(id)
      && (key != "value" ==> Lookup(r, "value") == Some(payload))
      && Keys(r) == if key == "value" then ["value"] else ["value", key]
  {
    var base := [Prop("value", payload)];
    if key != "value" {
      assert Put(base, key, id) == [Prop("value", payload), Prop(key, id)];
    }
  }

  /** With a truthy id parameter: an object payload gains the id under the key
      and keeps every other entry, a scalar payload becomes `{value, [key]: id}`,
      and no payload becomes the bare id. */
  lemma IdMerge(payload: Value, idParam: Value, id: Value, other: string)
    requires Truthy(idParam)
    ensures var key := ToString(idParam);
      var r := WithId(payload, idParam, id);
      && r.Some?
      && (KindOf(payload) == Absent ==> r.value == id)
      && (KindOf(payload) == Keyed ==>
            && r.value.Obj?
            && Lookup(r.value.props, key) == Some(id)
            && (other != key ==> Lookup(r.value.props, other) == Lookup(SpreadProps(payload), other)))
      && (KindOf(payload) == Scalar ==>
            && r.value.Obj?
            && Lookup(r.value.props, key) == Some(id)
            && (key != "value" ==> Lookup(r.value.props, "value") == Some(payload))
            && Keys(r.value.props) == if key == "value" then ["value"] else ["value", key])
  {
    var key := ToString(idParam);
    if KindOf(payload) == Keyed {
      PutLookup(SpreadProps(payload), key, id, key);
      PutLookup(SpreadProps(payload), key, id, other);
    } else if KindOf(payload) == Scalar {
      ScalarWithId(payload, key, id);
    }
  }

  /** Without a truthy id parameter, a `payload` key is present exactly when the
      derived payload is not `undefined`, and then it is that payload. */
  lemma NoIdPayload(payload: Value, idParam: Value, id: Value)
    requires !Truthy(idParam)
    ensures WithId(payload, idParam, id).Some? <==> !payload.Undefined?
    ensures WithId(payload, idParam, id).Some? ==> WithId(payload, idParam, id).value == payload
  {
  }

  /** An argument that is `undefined` is still written under its name. */
  lemma UndefinedArgumentNamed(name: string)
    ensures FromArgs([Undefined], Some([name])) == Obj([Prop(name, Undefined)])
  {
  }
}
