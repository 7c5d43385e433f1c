/** `shared/application/caching.py`: cache keys derived from a call's bound
    arguments, and the read-through wrapper installed by `cached`.

    `inspect.signature(...).bind_partial` and `apply_defaults` are modelled
    for positional-or-keyword and keyword-only parameters. An argument value
    is its rendering by `json.dumps(..., default=str)`; the SHA-256 of the
    serialised key data is a function parameter `hash`. A Python dict is a
    sequence of (name, value) items in insertion order. */
module Caching {
  import opened Wrappers
  import MemoryBackend
  import FileBackend

  /** An argument as `json.dumps(..., default=str)` renders it. */
  type Value = string

  /** A dict from names to values, in insertion order. */
  type Dict = seq<(string, Value)>

  predicate DistinctNames(d: Dict) {
    forall i, j :: 0 <= i < j < |d| ==> d[i].0 != d[j].0
  }

  /** `d.get(name)`. */
  function Get(d: Dict, name: string): Option<Value> {
    if d == [] then None
    else if d[0].0 == name then Some(d[0].1)
    else Get(d[1..], name)
  }

  /** `d[name] = v`: an existing item keeps its place, a new one goes last. */
  function Put(d: Dict, name: string, v: Value): (r: Dict)
    ensures DistinctNames(d) ==> DistinctNames(r)
    ensures forall n :: Get(r, n) == if n == name then Some(v) else Get(d, n)
    ensures forall x :: x in r ==> x == (name, v) || x in d
  {
    if d == [] then [(name, v)]
    else if d[0].0 == name then [(name, v)] + d[1..]
    else
      var r := [d[0]] + Put(d[1..], name, v);
      assert DistinctNames(d) ==> forall x :: x in d[1..] ==> x.0 != d[0].0;
      r
  }

  /** In a dict, looking a name up and finding the item are the same. */
  lemma {:induction false} GetIff(d: Dict, name: string, v: Value)
    requires DistinctNames(d)
    ensures Get(d, name) == Some(v) <==> (name, v) in d
  {
    if d != [] {
      assert DistinctNames(d[1..]);
      GetIff(d[1..], name, v);
      if d[0].0 == name {
        assert forall x :: x in d[1..] ==> x.0 != name;
      }
    }
  }

  /** Python's `<` on strings: code point order, a proper prefix first. */
  predicate Below(a: string, b: string)
    decreases |a|
  {
    if a == [] then b != []
    else if b == [] then false
    else if a[0] != b[0] then a[0] < b[0]
    else Below(a[1..], b[1..])
  }

  lemma {:induction false} BelowTotal(a: string, b: string)
    requires a != b
    ensures Below(a, b) || Below(b, a)
    decreases |a|
  {
    if a != [] && b != [] && a[0] == b[0] {
      assert a == [a[0]] + a[1..] && b == [b[0]] + b[1..];
      BelowTotal(a[1..], b[1..]);
    }
  }

  /** Each item's name is below the next one's. */
  predicate SortedByName(d: Dict) {
    forall i :: 0 <= i < |d| - 1 ==> Below(d[i].0, d[i + 1].0)
  }

  function Insert(item: (string, Value), d: Dict): (r: Dict)
    ensures |r| == |d| + 1
    ensures forall x :: x in r <==> x == item || x in d
    ensures SortedByName(d) && (forall x :: x in d ==> x.0 != item.0) ==> SortedByName(r)
    ensures r != [] && (r[0] == item || (d != [] && r[0] == d[0]))
  {
    if d == [] then [item]
    else if Below(item.0, d[0].0) then [item] + d
    else
      assert (forall x :: x in d ==> x.0 != item.0) ==> Below(d[0].0, item.0) by {
        if forall x :: x in d ==> x.0 != item.0 {
          BelowTotal(item.0, d[0].0);
        }
      }
      [d[0]] + Insert(item, d[1..])
  }

  /** `sorted(d.items())`: the items by name. */
  function Sort(d: Dict): (r: Dict)
    ensures |r| == |d|
    ensures forall x :: x in r <==> x in d
    ensures DistinctNames(d) ==> SortedByName(r)
  {
    if d == [] then []
    else
      assert DistinctNames(d) ==> DistinctNames(d[1..]);
      assert DistinctNames(d) ==> forall x :: x in d[1..] ==> x.0 != d[0].0;
      Insert(d[0], Sort(d[1..]))
  }

  datatype Kind = PositionalOrKeyword | KeywordOnly

  datatype Param = Param(name: string, kind: Kind, default: Option<Value>)

  /** What Python guarantees of a signature: distinct names, keyword-only
      parameters after the others. */
  predicate WellFormed(params: seq<Param>) {
    && (forall i, j :: 0 <= i < j < |params| ==> params[i].name != params[j].name)
    && (forall i, j :: 0 <= i < j < |params| && params[i].kind == KeywordOnly ==> params[j].kind == KeywordOnly)
  }

  /** The decorated function: where it is defined and its signature. */
  datatype Function = Function(moduleName: string, qualname: string, params: seq<Param>)

  /** `f"{func.__module__}.{func.__qualname__}"`. */
  function QualifiedName(f: Function): string {
    f.moduleName + "." + f.qualname
  }

  /** The `TypeError`s `bind_partial` raises. */
  datatype BindError = TooManyPositional | MultipleValues(name: string) | UnexpectedKeyword(name: string)

  /** The first positional argument, from the `i`-th on, that has no
      positional parameter or whose parameter is also given by keyword. */
  function PositionalError(params: seq<Param>, args: seq<Value>, kwargs: Dict, i: nat): Option<BindError>
    decreases |args| - i
  {
    if i >= |args| then None
    else if i >= |params| || params[i].kind == KeywordOnly then Some(TooManyPositional)
    else if Get(kwargs, params[i].name).Some? then Some(MultipleValues(params[i].name))
    else PositionalError(params, args, kwargs, i + 1)
  }

  predicate IsParamName(params: seq<Param>, name: string) {
    exists p :: p in params && p.name == name
  }

  /** The first keyword argument that names no parameter. */
  function UnknownKeyword(params: seq<Param>, kwargs: Dict): Option<string> {
    if kwargs == [] then None
    else if !IsParamName(params, kwargs[0].0) then Some(kwargs[0].0)
    else UnknownKeyword(params, kwargs[1..])
  }

  /** `bound_args.arguments` after `apply_defaults()`, one entry per
      parameter: the positional argument, else the keyword argument, else
      the default; None for a parameter left unbound. */
  function Argument(params: seq<Param>, args: seq<Value>, kwargs: Dict, i: nat): Option<Value>
    requires i < |params|
  {
    if i < |args| then Some(args[i])
    else if Get(kwargs, params[i].name).Some? then Get(kwargs, params[i].name)
    else params[i].default
  }

  function Arguments(params: seq<Param>, args: seq<Value>, kwargs: Dict): (a: seq<Option<Value>>)
    ensures |a| == |params|
  {
    seq(|params|, i requires 0 <= i < |params| => Argument(params, args, kwargs, i))
  }

  /** `sig.bind_partial(*args, **kwargs)` followed by `apply_defaults()`. */
  function Bind(params: seq<Param>, args: seq<Value>, kwargs: Dict): (r: Result<seq<Option<Value>>, BindError>)
    ensures r.Ok? ==> |r.value| == |params|
  {
    var positional := PositionalError(params, args, kwargs, 0);
    if positional.Some? then Err(positional.value)
    else
      var unknown := UnknownKeyword(params, kwargs);
      if unknown.Some? then Err(UnexpectedKeyword(unknown.value))
      else Ok(Arguments(params, args, kwargs))
  }

  /** How many leading parameters are positional-or-keyword and bound:
      those make up `bound_args.args`. */
  function LeadingFrom(params: seq<Param>, a: seq<Option<Value>>, i: nat): (n: nat)
    requires |a| == |params| && i <= |params|
    ensures i <= n <= |params|
    ensures forall k :: i <= k < n ==> params[k].kind == PositionalOrKeyword && a[k].Some?
    ensures n < |params| ==> params[n].kind != PositionalOrKeyword || a[n].None?
    decreases |params| - i
  {
    if i < |params| && params[i].kind == PositionalOrKeyword && a[i].Some? then LeadingFrom(params, a, i + 1)
    else i
  }

  function Leading(params: seq<Param>, a: seq<Option<Value>>): nat
    requires |a| == |params|
  {
    LeadingFrom(params, a, 0)
  }

  /** `bound_args.args`. */
  function PositionalArgs(params: seq<Param>, a: seq<Option<Value>>): (r: seq<Value>)
    requires |a| == |params|
    ensures |r| == Leading(params, a)
    ensures forall k :: 0 <= k < |r| ==> a[k] == Some(r[k])
  {
    var n := Leading(params, a);
    seq(n, k requires 0 <= k < n => a[k].value)
  }

  /** `bound_args.kwargs`: the bound parameters from the `i`-th on. */
  function KeywordArgsFrom(params: seq<Param>, a: seq<Option<Value>>, i: nat): (d: Dict)
    requires |a| == |params| && i <= |params|
    ensures forall x :: x in d <==> exists k :: i <= k < |params| && a[k].Some? && x == (params[k].name, a[k].value)
    decreases |params| - i
  {
    if i == |params| then []
    else
      var rest := KeywordArgsFrom(params, a, i + 1);
      if a[i].Some? then [(params[i].name, a[i].value)] + rest else rest
  }

  function KeywordArgs(params: seq<Param>, a: seq<Option<Value>>): Dict
    requires |a| == |params|
  {
    KeywordArgsFrom(params, a, Leading(params, a))
  }

  /** `name in bound_args.arguments` and its value. */
  function Named(params: seq<Param>, a: seq<Option<Value>>, name: string): (r: Option<Value>)
    requires |a| == |params|
    ensures r.Some? ==> exists k :: 0 <= k < |params| && params[k].name == name && a[k] == r
    ensures r.None? ==> forall k :: 0 <= k < |params| && params[k].name == name ==> a[k].None?
  {
    if params == [] then None
    else if params[0].name == name && a[0].Some? then a[0]
    else
      var r := Named(params[1..], a[1..], name);
      assert forall k :: 1 <= k < |params| ==> params[k] == params[1..][k - 1] && a[k] == a[1..][k - 1];
      r
  }

  /** `filtered_args` after the loop has seen `names`. */
  function Selection(params: seq<Param>, a: seq<Option<Value>>, names: seq<string>): (d: Dict)
    requires |a| == |params|
    ensures DistinctNames(d)
    ensures forall x :: x in d ==> x.0 in names
    decreases |names|
  {
    if names == [] then []
    else
      var init := names[..|names| - 1];
      var name := names[|names| - 1];
      var d := Selection(params, a, init);
      var v := Named(params, a, name);
      if v.Some? then Put(d, name, v.value) else d
  }

  /** The dictionary that is serialised and hashed. */
  datatype KeyData =
    | AllArguments(func: string, args: seq<Value>, kwargs: Dict)
    | SelectedArguments(func: string, kwargs: Dict)

  /** `key_data` for bound arguments `a`. An empty `keyParams` stands for
      both None and the empty list, which `if key_params:` treats alike. */
  function KeyDataFor(f: Function, a: seq<Option<Value>>, keyParams: seq<string>): KeyData
    requires |a| == |f.params|
  {
    if |keyParams| > 0 then SelectedArguments(QualifiedName(f), Sort(Selection(f.params, a, keyParams)))
    else AllArguments(QualifiedName(f), PositionalArgs(f.params, a), Sort(KeywordArgs(f.params, a)))
  }

  /** `generate_key(func, args, kwargs, key_params)`: the binding error, or
      the hash of the key data. */
  function GeneratedKey(f: Function, args: seq<Value>, kwargs: Dict, keyParams: seq<string>,
                        hash: KeyData -> string): Result<string, BindError>
  {
    match Bind(f.params, args, kwargs)
    case Err(e) => Err(e)
    case Ok(a) => Ok(hash(KeyDataFor(f, a, keyParams)))
  }

  /** `generate_key`, with its loop over `key_params`. */
  method GenerateKey(f: Function, args: seq<Value>, kwargs: Dict, keyParams: seq<string>,
                     hash: KeyData -> string) returns (r: Result<string, BindError>)
    ensures r == GeneratedKey(f, args, kwargs, keyParams, hash)
  {
    var funcName := QualifiedName(f);
    var bound := Bind(f.params, args, kwargs);
    if bound.Err? {
      return Err(bound.error);
    }
    var arguments := bound.value;
    var keyData: KeyData;
    if |keyParams| > 0 {
      var filtered: Dict := [];
      for i := 0 to |keyParams|
        invariant filtered == Selection(f.params, arguments, keyParams[..i])
      {
        assert keyParams[..i + 1][..i] == keyParams[..i];
        var name := keyParams[i];
        var value := Named(f.params, arguments, name);
        if value.Some? {
          filtered := Put(filtered, name, value.value);
        }
      }
      assert keyParams[..|keyParams|] == keyParams;
      keyData := SelectedArguments(funcName, Sort(filtered));
    } else {
      keyData := AllArguments(funcName, PositionalArgs(f.params, arguments), Sort(KeywordArgs(f.params, arguments)));
    }
    return Ok(hash(keyData));
  }

  ghost predicate Injective(hash: KeyData -> string) {
    forall d1, d2 :: hash(d1) == hash(d2) ==> d1 == d2
  }

  // Properties of the key.

  /** Lookups agree when two dicts hold the same items. */
  lemma SameItemsSameGet(d1: Dict, d2: Dict, name: string)
    requires DistinctNames(d1) && DistinctNames(d2)
    requires forall x :: x in d1 <==> x in d2
    ensures Get(d1, name) == Get(d2, name)
  {
    if Get(d1, name).Some? {
      GetIff(d1, name, Get(d1, name).value);
      GetIff(d2, name, Get(d1, name).value);
    } else if Get(d2, name).Some? {
      GetIff(d1, name, Get(d2, name).value);
      GetIff(d2, name, Get(d2, name).value);
    }
  }

  lemma {:induction false} GetSomeIn(d: Dict, name: string)
    requires Get(d, name).Some?
    ensures (name, Get(d, name).value) in d
  {
    if d[0].0 != name {
      GetSomeIn(d[1..], name);
    }
  }

  lemma {:induction false} UnknownKeywordIff(params: seq<Param>, kwargs: Dict)
    ensures UnknownKeyword(params, kwargs).None? <==> forall x :: x in kwargs ==> IsParamName(params, x.0)
  {
    if kwargs != [] {
      UnknownKeywordIff(params, kwargs[1..]);
      assert forall x :: x in kwargs <==> x == kwargs[0] || x in kwargs[1..];
    }
  }

  lemma {:induction false} PositionalErrorSame(params: seq<Param>, args: seq<Value>, kw1: Dict, kw2: Dict, i: nat)
    requires forall n :: Get(kw1, n).Some? <==> Get(kw2, n).Some?
    ensures PositionalError(params, args, kw1, i) == PositionalError(params, args, kw2, i)
    decreases |args| - i
  {
    if i < |args| {
      PositionalErrorSame(params, args, kw1, kw2, i + 1);
    }
  }

  /** The order in which keyword arguments are passed does not matter: the
      call binds, or fails, alike, and binds to the same arguments. */
  lemma KeywordOrderIrrelevant(params: seq<Param>, args: seq<Value>, kw1: Dict, kw2: Dict)
    requires DistinctNames(kw1) && DistinctNames(kw2)
    requires forall x :: x in kw1 <==> x in kw2
    ensures Bind(params, args, kw1).Ok? <==> Bind(params, args, kw2).Ok?
    ensures Bind(params, args, kw1).Ok? ==> Bind(params, args, kw1) == Bind(params, args, kw2)
  {
    forall n
      ensures Get(kw1, n) == Get(kw2, n)
    {
      SameItemsSameGet(kw1, kw2, n);
    }
    PositionalErrorSame(params, args, kw1, kw2, 0);
    UnknownKeywordIff(params, kw1);
    UnknownKeywordIff(params, kw2);
    assert Arguments(params, args, kw1) == Arguments(params, args, kw2);
  }

  /** Hence the key does not depend on the keyword order either. */
  lemma KeyIgnoresKeywordOrder(f: Function, args: seq<Value>, kw1: Dict, kw2: Dict,
                               keyParams: seq<string>, hash: KeyData -> string)
    requires DistinctNames(kw1) && DistinctNames(kw2)
    requires forall x :: x in kw1 <==> x in kw2
    ensures GeneratedKey(f, args, kw1, keyParams, hash).Ok? <==> GeneratedKey(f, args, kw2, keyParams, hash).Ok?
    ensures GeneratedKey(f, args, kw1, keyParams, hash).Ok? ==>
            GeneratedKey(f, args, kw1, keyParams, hash) == GeneratedKey(f, args, kw2, keyParams, hash)
  {
    KeywordOrderIrrelevant(f.params, args, kw1, kw2);
  }

  lemma GetAppend(kw: Dict, name: string, v: Value, n: string)
    requires Get(kw, name).None?
    ensures Get(kw + [(name, v)], n) == if n == name then Some(v) else Get(kw, n)
  {
    if kw != [] {
      assert (kw + [(name, v)])[1..] == kw[1..] + [(name, v)];
      GetAppend(kw[1..], name, v, n);
    }
  }

  lemma {:induction false} UnknownKeywordAppend(params: seq<Param>, kw: Dict, name: string, v: Value)
    requires IsParamName(params, name)
    ensures UnknownKeyword(params, kw + [(name, v)]) == UnknownKeyword(params, kw)
  {
    if kw != [] {
      assert (kw + [(name, v)])[1..] == kw[1..] + [(name, v)];
      UnknownKeywordAppend(params, kw[1..], name, v);
    }
  }

  lemma {:induction false} PositionalErrorAppend(params: seq<Param>, args: seq<Value>, kw: Dict, name: string, v: Value, i: nat)
    requires Get(kw, name).None?
    requires forall k :: 0 <= k < |args| && k < |params| ==> params[k].name != name
    ensures PositionalError(params, args, kw + [(name, v)], i) == PositionalError(params, args, kw, i)
    decreases |args| - i
  {
    if i < |args| {
      if i < |params| {
        GetAppend(kw, name, v, params[i].name);
      }
      PositionalErrorAppend(params, args, kw, name, v, i + 1);
    }
  }

  /** Leaving out a parameter that has a default binds as passing the
      default by keyword. */
  lemma DefaultsApplied(params: seq<Param>, args: seq<Value>, kwargs: Dict, j: nat)
    requires WellFormed(params)
    requires |args| <= j < |params| && params[j].default.Some?
    requires Get(kwargs, params[j].name).None?
    ensures Bind(params, args, kwargs + [(params[j].name, params[j].default.value)]) == Bind(params, args, kwargs)
  {
    var name, d := params[j].name, params[j].default.value;
    assert params[j] in params;
    UnknownKeywordAppend(params, kwargs, name, d);
    assert forall k :: 0 <= k < |args| && k < |params| ==> params[k].name != name;
    PositionalErrorAppend(params, args, kwargs, name, d, 0);
    forall i | 0 <= i < |params|
      ensures Argument(params, args, kwargs + [(name, d)], i) == Argument(params, args, kwargs, i)
    {
      GetAppend(kwargs, name, d, params[i].name);
    }
    assert Arguments(params, args, kwargs + [(name, d)]) == Arguments(params, args, kwargs);
  }

  /** Passing the next positional-or-keyword parameter by position or by
      keyword binds alike. */
  lemma PositionOrKeyword(params: seq<Param>, args: seq<Value>, kwargs: Dict, v: Value)
    requires WellFormed(params)
    requires |args| < |params| && params[|args|].kind == PositionalOrKeyword
    requires Get(kwargs, params[|args|].name).None?
    ensures Bind(params, args + [v], kwargs) == Bind(params, args, kwargs + [(params[|args|].name, v)])
  {
    var name := params[|args|].name;
    assert params[|args|] in params;
    UnknownKeywordAppend(params, kwargs, name, v);
    assert forall k :: 0 <= k < |args| && k < |params| ==> params[k].name != name;
    PositionalErrorAppend(params, args, kwargs, name, v, 0);
    PositionalErrorShift(params, args, kwargs, v, 0);
    forall i | 0 <= i < |params|
      ensures Argument(params, args + [v], kwargs, i) == Argument(params, args, kwargs + [(name, v)], i)
    {
      GetAppend(kwargs, name, v, params[i].name);
    }
    assert Arguments(params, args + [v], kwargs) == Arguments(params, args, kwargs + [(name, v)]);
  }

  lemma {:induction false} PositionalErrorShift(params: seq<Param>, args: seq<Value>, kwargs: Dict, v: Value, i: nat)
    requires |args| < |params| && params[|args|].kind == PositionalOrKeyword
    requires Get(kwargs, params[|args|].name).None?
    requires i <= |args|
    ensures PositionalError(params, args + [v], kwargs, i) == PositionalError(params, args, kwargs, i)
    decreases |args| - i
  {
    if i < |args| {
      PositionalErrorShift(params, args, kwargs, v, i + 1);
    } else {
      assert PositionalError(params, args + [v], kwargs, i + 1) == None;
    }
  }

  /** With `key_params`, only the listed parameters matter: calls whose
      bound arguments agree on them get the same key. */
  lemma {:induction false} SelectionDependsOnListed(params: seq<Param>, a1: seq<Option<Value>>, a2: seq<Option<Value>>,
                                                    names: seq<string>)
    requires |a1| == |params| && |a2| == |params|
    requires forall k :: 0 <= k < |params| && params[k].name in names ==> a1[k] == a2[k]
    ensures Selection(params, a1, names) == Selection(params, a2, names)
    decreases |names|
  {
    if names != [] {
      var init := names[..|names| - 1];
      var name := names[|names| - 1];
      SelectionDependsOnListed(params, a1, a2, init);
      NamedDependsOnName(params, a1, a2, name);
    }
  }

  lemma {:induction false} NamedDependsOnName(params: seq<Param>, a1: seq<Option<Value>>, a2: seq<Option<Value>>, name: string)
    requires |a1| == |params| && |a2| == |params|
    requires forall k :: 0 <= k < |params| && params[k].name == name ==> a1[k] == a2[k]
    ensures Named(params, a1, name) == Named(params, a2, name)
  {
    if params != [] && !(params[0].name == name && a1[0].Some?) {
      assert forall k :: 1 <= k < |params| ==> params[k] == params[1..][k - 1] && a1[k] == a1[1..][k - 1] && a2[k] == a2[1..][k - 1];
      NamedDependsOnName(params[1..], a1[1..], a2[1..], name);
    }
  }

  lemma SelectedKeyIgnoresOthers(f: Function, args1: seq<Value>, kw1: Dict, args2: seq<Value>, kw2: Dict,
                                 keyParams: seq<string>, hash: KeyData -> string)
    requires |keyParams| > 0
    requires Bind(f.params, args1, kw1).Ok? && Bind(f.params, args2, kw2).Ok?
    requires forall k :: 0 <= k < |f.params| && f.params[k].name in keyParams ==>
               Bind(f.params, args1, kw1).value[k] == Bind(f.params, args2, kw2).value[k]
    ensures GeneratedKey(f, args1, kw1, keyParams, hash) == GeneratedKey(f, args2, kw2, keyParams, hash)
  {
    SelectionDependsOnListed(f.params, Bind(f.params, args1, kw1).value, Bind(f.params, args2, kw2).value, keyParams);
  }

  /** What the selection holds: each listed name bound in the call, with its
      value. */
  lemma {:induction false} SelectionHolds(params: seq<Param>, a: seq<Option<Value>>, names: seq<string>, name: string)
    requires |a| == |params|
    ensures Get(Selection(params, a, names), name) == if name in names then Named(params, a, name) else None
    decreases |names|
  {
    if names != [] {
      var init := names[..|names| - 1];
      SelectionHolds(params, a, init, name);
      assert names == init + [names[|names| - 1]];
    }
  }

  /** A sort keeps what a dict answers. */
  lemma SortKeepsGet(d: Dict, name: string)
    requires DistinctNames(d)
    ensures DistinctNames(Sort(d))
    ensures Get(Sort(d), name) == Get(d, name)
  {
    var s := Sort(d);
    forall i, j | 0 <= i < j < |s|
      ensures s[i].0 != s[j].0
    {
      SortedDistinct(s, i, j);
    }
    SameItemsSameGet(d, s, name);
  }

  /** In a sorted dict, names never repeat. */
  lemma {:induction false} SortedDistinct(s: Dict, i: nat, j: nat)
    requires SortedByName(s) && i < j < |s|
    ensures s[i].0 != s[j].0
    decreases j - i
  {
    if j == i + 1 {
      BelowIrreflexive(s[i].0);
    } else {
      SortedDistinct(s, i + 1, j);
      if s[i].0 == s[j].0 {
        BelowTransitive(s[i + 1].0, s[j - 1].0, s[j].0, s, i + 1, j - 1);
        BelowAntisymmetric(s[i].0, s[i + 1].0);
      }
    }
  }

  lemma {:induction false} BelowIrreflexive(a: string)
    ensures !Below(a, a)
    decreases |a|
  {
    if a != [] {
      BelowIrreflexive(a[1..]);
    }
  }

  lemma {:induction false} BelowAntisymmetric(a: string, b: string)
    ensures !(Below(a, b) && Below(b, a))
    decreases |a|
  {
    if a != [] && b != [] && a[0] == b[0] {
      BelowAntisymmetric(a[1..], b[1..]);
    }
  }

  lemma {:induction false} BelowTrans(a: string, b: string, c: string)
    requires Below(a, b) && Below(b, c)
    ensures Below(a, c)
    decreases |a|
  {
    if a != [] && b != [] && c != [] && a[0] == b[0] && b[0] == c[0] {
      BelowTrans(a[1..], b[1..], c[1..]);
    }
  }

  /** Along a sorted dict, an earlier name is below every later one. */
  lemma {:induction false} BelowTransitive(x: string, y: string, z: string, s: Dict, i: nat, j: nat)
    requires SortedByName(s) && i <= j < |s| - 1
    requires x == s[i].0 && y == s[j].0 && z == s[j + 1].0
    ensures Below(x, z)
    decreases j - i
  {
    if i == j {
    } else {
      BelowTransitive(x, s[j - 1].0, y, s, i, j - 1);
      BelowTrans(x, y, z);
    }
  }

  /** With `key_params`, a listed parameter bound to different values (or
      bound in one call only) gives a different key. */
  lemma SelectedKeySeparates(f: Function, args1: seq<Value>, kw1: Dict, args2: seq<Value>, kw2: Dict,
                             keyParams: seq<string>, name: string, hash: KeyData -> string)
    requires Injective(hash)
    requires name in keyParams
    requires Bind(f.params, args1, kw1).Ok? && Bind(f.params, args2, kw2).Ok?
    requires Named(f.params, Bind(f.params, args1, kw1).value, name) != Named(f.params, Bind(f.params, args2, kw2).value, name)
    ensures GeneratedKey(f, args1, kw1, keyParams, hash) != GeneratedKey(f, args2, kw2, keyParams, hash)
  {
    var a1, a2 := Bind(f.params, args1, kw1).value, Bind(f.params, args2, kw2).value;
    var s1, s2 := Selection(f.params, a1, keyParams), Selection(f.params, a2, keyParams);
    SelectionHolds(f.params, a1, keyParams, name);
    SelectionHolds(f.params, a2, keyParams, name);
    SortKeepsGet(s1, name);
    SortKeepsGet(s2, name);
    assert Sort(s1) != Sort(s2);
  }

  /** Without `key_params`, the key data determine every bound argument. */
  lemma AllArgumentsDetermine(params: seq<Param>, a1: seq<Option<Value>>, a2: seq<Option<Value>>)
    requires WellFormed(params)
    requires |a1| == |params| && |a2| == |params|
    requires PositionalArgs(params, a1) == PositionalArgs(params, a2)
    requires Sort(KeywordArgs(params, a1)) == Sort(KeywordArgs(params, a2))
    ensures a1 == a2
  {
    var n := Leading(params, a1);
    assert n == Leading(params, a2);
    forall k | 0 <= k < |params|
      ensures a1[k] == a2[k]
    {
      if k < n {
        assert a1[k] == Some(PositionalArgs(params, a1)[k]);
        assert a2[k] == Some(PositionalArgs(params, a2)[k]);
      } else {
        KeywordArgsBound(params, a1, a2, n, k);
        KeywordArgsBound(params, a2, a1, n, k);
      }
    }
  }

  /** An argument bound past the leading run shows up, with its value,
      among the other call's keyword arguments when both sort alike. */
  lemma KeywordArgsBound(params: seq<Param>, a1: seq<Option<Value>>, a2: seq<Option<Value>>, n: nat, k: nat)
    requires WellFormed(params)
    requires |a1| == |params| && |a2| == |params|
    requires n == Leading(params, a1) == Leading(params, a2)
    requires n <= k < |params|
    requires Sort(KeywordArgs(params, a1)) == Sort(KeywordArgs(params, a2))
    ensures a1[k].Some? ==> a2[k] == a1[k]
  {
    if a1[k].Some? {
      var x := (params[k].name, a1[k].value);
      assert x in KeywordArgs(params, a1);
      assert x in Sort(KeywordArgs(params, a1));
      assert x in KeywordArgs(params, a2);
      var k2 :| n <= k2 < |params| && a2[k2].Some? && x == (params[k2].name, a2[k2].value);
      assert k2 == k;
    }
  }

  /** Without `key_params` every bound argument takes part: calls that bind
      any parameter differently get different keys. */
  lemma FullKeySeparates(f: Function, args1: seq<Value>, kw1: Dict, args2: seq<Value>, kw2: Dict,
                         hash: KeyData -> string)
    requires Injective(hash) && WellFormed(f.params)
    requires Bind(f.params, args1, kw1).Ok? && Bind(f.params, args2, kw2).Ok?
    requires Bind(f.params, args1, kw1) != Bind(f.params, args2, kw2)
    ensures GeneratedKey(f, args1, kw1, [], hash) != GeneratedKey(f, args2, kw2, [], hash)
  {
    var a1, a2 := Bind(f.params, args1, kw1).value, Bind(f.params, args2, kw2).value;
    if KeyDataFor(f, a1, []) == KeyDataFor(f, a2, []) {
      AllArgumentsDetermine(f.params, a1, a2);
    }
  }

  // The decorator.

  /** `key_func(func, *args, **kwargs)`. */
  type KeyFunc = (Function, seq<Value>, Dict) -> string

  /** The settings `cached(...)` closes over. */
  datatype Config = Config(ttl: Option<int>, keyFunc: Option<KeyFunc>, keyParams: seq<string>)

  /** `cached(backend, ttl, key_func, key_params)`: refuses a key function
      together with a non-empty parameter list, before any call. */
  function Cached(ttl: Option<int>, keyFunc: Option<KeyFunc>, keyParams: seq<string>): (r: Result<Config, string>)
    ensures r.Err? <==> keyFunc.Some? && |keyParams| > 0
    ensures r.Err? ==> r.error == "key_func and key_params are mutually exclusive"
    ensures r.Ok? ==> r.value == Config(ttl, keyFunc, keyParams)
  {
    if keyFunc.Some? && |keyParams| > 0 then Err("key_func and key_params are mutually exclusive")
    else Ok(Config(ttl, keyFunc, keyParams))
  }

  /** The key `wrapper` uses for a call. */
  function KeyFor(config: Config, f: Function, args: seq<Value>, kwargs: Dict, hash: KeyData -> string): Result<string, BindError> {
    if config.keyFunc.Some? then Ok(config.keyFunc.value(f, args, kwargs))
    else GeneratedKey(f, args, kwargs, config.keyParams, hash)
  }

  /** The two backends. */
  datatype Backend<R> = Memory(memory: MemoryBackend.MemoryCacheBackend<R>) | Files(files: FileBackend.FileCacheBackend<R>)

  function Object<R>(b: Backend<R>): object {
    if b.Memory? then b.memory else b.files
  }

  /** What `backend.get(key)` answers now. */
  function Stored<R>(b: Backend<R>, key: string, now: int): Option<R>
    reads Object(b)
  {
    match b
    case Memory(m) => MemoryBackend.Lookup(m.cache, key, now)
    case Files(d) => FileBackend.Lookup(d.files, key, now)
  }

  /** `wrapper(*args, **kwargs)`: with the key, return a stored value, or
      call the function, store its result under the key with the configured
      ttl and return it. `called` says whether the function ran; `now` is
      the time of the read and `later` the time of the write. */
  method CallCached<R>(config: Config, backend: Backend<R>, f: Function, run: (seq<Value>, Dict) -> R,
                       args: seq<Value>, kwargs: Dict, hash: KeyData -> string, now: int, later: int)
    returns (r: Result<R, BindError>, called: bool)
    modifies Object(backend)
    ensures var key := KeyFor(config, f, args, kwargs, hash);
            && (key.Err? ==> r == Err(key.error) && !called && unchanged(Object(backend)))
            && (key.Ok? ==> var hit := old(Stored(backend, key.value, now));
                  && (hit.Some? ==> r == Ok(hit.value) && !called)
                  && (hit.None? ==> r == Ok(run(args, kwargs)) && called))
    ensures var key := KeyFor(config, f, args, kwargs, hash);
            key.Ok? && backend.Memory? ==>
              var read := MemoryBackend.Pruned(old(backend.memory.cache), key.value, now);
              backend.memory.cache ==
                if r.Ok? && !called then read
                else read[key.value := MemoryBackend.Entry(r.value, MemoryBackend.ExpiryAt(later, config.ttl))]
    ensures var key := KeyFor(config, f, args, kwargs, hash);
            key.Ok? && backend.Files? ==>
              var read := FileBackend.Pruned(old(backend.files.files), key.value, now);
              backend.files.files ==
                if r.Ok? && !called then read
                else read[FileBackend.PathForKey(key.value) := FileBackend.Written(r.value, config.ttl, later)]
  {
    var key: string;
    if config.keyFunc.Some? {
      key := config.keyFunc.value(f, args, kwargs);
    } else {
      var generated := GenerateKey(f, args, kwargs, config.keyParams, hash);
      if generated.Err? {
        return Err(generated.error), false;
      }
      key := generated.value;
    }
    var cachedValue: Option<R>;
    match backend {
      case Memory(m) => cachedValue := m.Get(key, now);
      case Files(d) => cachedValue := d.Get(key, now);
    }
    if cachedValue.Some? {
      return Ok(cachedValue.value), false;
    }
    var result := run(args, kwargs);
    match backend {
      case Memory(m) => m.Set(key, result, config.ttl, later);
      case Files(d) => d.Set(key, result, config.ttl, later);
    }
    return Ok(result), true;
  }

  /** After a miss, the stored result is what the next call within the ttl
      gets, without running the function again. */
  lemma MissThenHit<R>(cache: map<string, MemoryBackend.Entry<R>>, key: string, result: R, ttl: Option<int>,
                       later: int, next: int)
    requires ttl.None? || next <= later + ttl.value
    ensures MemoryBackend.Lookup(cache[key := MemoryBackend.Entry(result, MemoryBackend.ExpiryAt(later, ttl))], key, next) == Some(result)
  {
    MemoryBackend.SetThenGet(cache, key, result, ttl, later, next);
  }
}
