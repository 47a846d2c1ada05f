/**
 `addAppCltRoute`, behind `app.authGet` and `app.authPost`: resolves the
 peers a protected route serves and validates the registration. Every
 refusal is a thrown `Error` at configuration time.
 */
module Routes {
  import opened Js
  import opened Sessions

  /** The `cltNames` argument: a string, an array of arbitrary values (None
      for an element that is not a string), `true`, or anything else. */
  datatype Names = Name(name: string) | NameArray(names: seq<Option<string>>) | AllPeers | Unsupported

  /** The message of the thrown `Error`. */
  datatype RouteError = InvalidServerName | NoCallbacks | InvalidMethod

  /** A registered route: its full path, the groups its `clientParser`
      searches (as registry indices, in order), whether it parses a body
      (post) and how many handlers follow the middleware. */
  datatype Route = Route(path: string, groups: seq<nat>, parseBody: bool, callbacks: nat)

  datatype Result<T> = Ok(value: T) | Err(error: RouteError)

  /** The `clts` array: resolved groups, None for each `false` pushed by `get`. */
  predicate Resolved(reg: Registry, clts: seq<Option<nat>>)
  {
    forall j :: 0 <= j < |clts| && clts[j].Some? ==> clts[j].value < |reg|
  }

  /** `clts.find(el => el.name === v)` finds a group: one named `v` is already in. */
  predicate Holds(reg: Registry, clts: seq<Option<nat>>, v: Option<string>)
    requires Resolved(reg, clts)
  {
    v.Some? && exists j :: 0 <= j < |clts| && clts[j].Some? && reg[clts[j].value].name == v.value
  }

  /** `get(name)` of every element of the array, in order. */
  function Lookups(reg: Registry, names: seq<Option<string>>): (r: seq<Option<nat>>)
    ensures |r| == |names| && forall i :: 0 <= i < |names| ==> r[i] == Get(reg, names[i])
  {
    seq(|names|, i requires 0 <= i < |names| => Get(reg, names[i]))
  }

  /** The array branch: for each name in order, push `get(name)` unless a
      group with that name is already in. */
  function ResolveArray(reg: Registry, names: seq<Option<string>>): (r: seq<Option<nat>>)
    ensures Resolved(reg, r)
    ensures |r| > 0 <==> |names| > 0
    ensures forall j :: 0 <= j < |r| ==> r[j] in Lookups(reg, names)
    decreases |names|
  {
    if |names| == 0 then []
    else
      var prefix := names[..|names| - 1];
      var acc := ResolveArray(reg, prefix);
      assert Lookups(reg, names) == Lookups(reg, prefix) + [Get(reg, names[|names| - 1])];
      if Holds(reg, acc, names[|names| - 1]) then acc else acc + [Get(reg, names[|names| - 1])]
  }

  /** An entry found by `get` is the group `get` finds for that group's own name. */
  lemma FoundByOwnName(reg: Registry, v: Option<string>)
    requires Get(reg, v).Some?
    ensures v == Some(reg[Get(reg, v).value].name)
  {
  }

  /** Every name that resolves is represented in the array branch's result. */
  lemma {:induction false} ResolveArrayCovers(reg: Registry, names: seq<Option<string>>)
    ensures forall x :: x in Lookups(reg, names) && x.Some? ==> x in ResolveArray(reg, names)
    decreases |names|
  {
    if |names| > 0 {
      var prefix := names[..|names| - 1];
      var v := names[|names| - 1];
      var acc := ResolveArray(reg, prefix);
      ResolveArrayCovers(reg, prefix);
      assert Lookups(reg, names) == Lookups(reg, prefix) + [Get(reg, v)];
      if Holds(reg, acc, v) {
        var j :| 0 <= j < |acc| && acc[j].Some? && reg[acc[j].value].name == v.value;
        assert acc[j] in Lookups(reg, prefix);
        var i :| 0 <= i < |prefix| && Lookups(reg, prefix)[i] == acc[j];
        FoundByOwnName(reg, prefix[i]);
        assert Get(reg, v) == acc[j];
      }
    }
  }

  /** A `false` lands in the array branch's result exactly when some name
      does not resolve. */
  lemma {:induction false} ResolveArrayFalse(reg: Registry, names: seq<Option<string>>)
    ensures None in ResolveArray(reg, names) <==> None in Lookups(reg, names)
    decreases |names|
  {
    if |names| > 0 {
      var prefix := names[..|names| - 1];
      var v := names[|names| - 1];
      var acc := ResolveArray(reg, prefix);
      ResolveArrayFalse(reg, prefix);
      assert Lookups(reg, names) == Lookups(reg, prefix) + [Get(reg, v)];
      if Holds(reg, acc, v) {
        var j :| 0 <= j < |acc| && acc[j].Some? && reg[acc[j].value].name == v.value;
        assert Get(reg, v).Some?;
      } else {
        assert ResolveArray(reg, names) == acc + [Get(reg, v)];
      }
    }
  }

  /** No two resolved entries of `clts` carry the same group name. */
  predicate DistinctNames(reg: Registry, clts: seq<Option<nat>>)
    requires Resolved(reg, clts)
  {
    forall j, k :: 0 <= j < k < |clts| && clts[j].Some? && clts[k].Some? ==>
      reg[clts[j].value].name != reg[clts[k].value].name
  }

  /** No two entries of the array branch's result name the same group name. */
  lemma {:induction false} ResolveArrayDistinct(reg: Registry, names: seq<Option<string>>)
    ensures DistinctNames(reg, ResolveArray(reg, names))
    decreases |names|
  {
    if |names| > 0 {
      var prefix := names[..|names| - 1];
      var v := names[|names| - 1];
      var acc := ResolveArray(reg, prefix);
      ResolveArrayDistinct(reg, prefix);
      var r := ResolveArray(reg, names);
      if Holds(reg, acc, v) {
        assert r == acc;
        forall j, k | 0 <= j < k < |r| && r[j].Some? && r[k].Some?
          ensures reg[r[j].value].name != reg[r[k].value].name
        {
          assert r[j] == acc[j] && r[k] == acc[k];
        }
      } else {
        assert r == acc + [Get(reg, v)];
        assert forall j :: 0 <= j < |acc| ==> r[j] == acc[j];
        if Get(reg, v).Some? {
          FoundByOwnName(reg, v);
          forall j, k | 0 <= j < k < |r| && r[j].Some? && r[k].Some?
            ensures reg[r[j].value].name != reg[r[k].value].name
          {
            assert r[j] == acc[j];
            if k < |acc| {
              assert r[k] == acc[k];
            } else {
              assert r[k] == Get(reg, v);
            }
          }
        } else {
          forall j, k | 0 <= j < k < |r| && r[j].Some? && r[k].Some?
            ensures reg[r[j].value].name != reg[r[k].value].name
          {
            assert r[j] == acc[j] && r[k] == acc[k];
          }
        }
      }
    }
  }

  /** The groups `cltNames` stands for: `get(name)` for a string; for an
      array, one entry per name whose group is not already in, covering every
      name that resolves, with a `false` exactly when some name does not;
      every group in order for `true`; nothing otherwise. */
  function Resolve(reg: Registry, names: Names): (r: seq<Option<nat>>)
    ensures Resolved(reg, r)
    ensures names.Name? ==> r == [Get(reg, Some(names.name))]
    ensures names.NameArray? ==>
      && (|r| > 0 <==> |names.names| > 0)
      && (forall j :: 0 <= j < |r| ==> r[j] in Lookups(reg, names.names))
      && (forall x :: x in Lookups(reg, names.names) && x.Some? ==> x in r)
      && (None in r <==> None in Lookups(reg, names.names))
      && DistinctNames(reg, r)
    ensures names.AllPeers? ==> |r| == |reg| && forall g :: 0 <= g < |r| ==> r[g] == Some(g)
    ensures names.Unsupported? ==> r == []
  {
    match names
    case Name(s) => [Get(reg, Some(s))]
    case NameArray(ns) =>
      ResolveArrayCovers(reg, ns);
      ResolveArrayFalse(reg, ns);
      ResolveArrayDistinct(reg, ns);
      ResolveArray(reg, ns)
    case AllPeers => seq(|reg|, g requires 0 <= g < |reg| => Some(g as nat))
    case Unsupported => []
  }

  /** The route's peers all exist: the condition under which registration
      does not throw 'Invalid server name'. */
  predicate Resolves(reg: Registry, names: Names)
  {
    match names
    case Name(s) => s != "" && exists g :: 0 <= g < |reg| && reg[g].name == s
    case NameArray(ns) => |ns| > 0 && forall i :: 0 <= i < |ns| ==> Get(reg, ns[i]).Some?
    case AllPeers => |reg| > 0
    case Unsupported => false
  }

  /** What a successful registration serves, per form of `cltNames`. */
  predicate Serves(reg: Registry, names: Names, groups: seq<nat>)
  {
    && Listed(reg, groups)
    && match names
       case Name(s) => Get(reg, Some(s)).Some? && groups == [Get(reg, Some(s)).value]
       case NameArray(ns) =>
         && (forall j :: 0 <= j < |groups| ==> exists i :: 0 <= i < |ns| && Some(groups[j]) == Get(reg, ns[i]))
         && (forall i :: 0 <= i < |ns| ==> Get(reg, ns[i]).Some? && Get(reg, ns[i]).value in groups)
         && (forall j, k :: 0 <= j < k < |groups| ==> reg[groups[j]].name != reg[groups[k]].name)
       case AllPeers => groups == AllGroups(reg)
       case Unsupported => false
  }

  function Values(clts: seq<Option<nat>>): (r: seq<nat>)
    requires forall j :: 0 <= j < |clts| ==> clts[j].Some?
    ensures |r| == |clts| && forall j :: 0 <= j < |r| ==> clts[j] == Some(r[j])
  {
    seq(|clts|, j requires 0 <= j < |clts| => clts[j].value)
  }

  /** `addAppCltRoute(cltNames, method, route = '/', ...callbacks)`: the
      name check comes first, then the callbacks, then the method. */
  function AddAppCltRoute(reg: Registry, names: Names, verb: string, api: string,
                          route: Option<string>, callbacks: nat): (r: Result<Route>)
    ensures !Resolves(reg, names) ==> r == Err(InvalidServerName)
    ensures Resolves(reg, names) && callbacks == 0 ==> r == Err(NoCallbacks)
    ensures Resolves(reg, names) && callbacks > 0 && verb != "get" && verb != "post" ==> r == Err(InvalidMethod)
    ensures r.Ok? <==> Resolves(reg, names) && callbacks > 0 && (verb == "get" || verb == "post")
    ensures r.Ok? ==>
      && r.value.path == api + (if route.Some? then route.value else "/")
      && r.value.parseBody == (verb == "post")
      && r.value.callbacks == callbacks
      && Serves(reg, names, r.value.groups)
  {
    var clts := Resolve(reg, names);
    ResolveMeaning(reg, names);
    if |clts| == 0 || (exists j :: 0 <= j < |clts| && clts[j].None?) then Err(InvalidServerName)
    else if callbacks == 0 then Err(NoCallbacks)
    else
      var path := api + (if route.Some? then route.value else "/");
      if verb == "get" then Ok(Route(path, Values(clts), false, callbacks))
      else if verb == "post" then Ok(Route(path, Values(clts), true, callbacks))
      else Err(InvalidMethod)
  }

  /** The `clts` array is non-empty and free of `false` exactly when the
      names resolve, and then it lists what the route serves. */
  lemma ResolveMeaning(reg: Registry, names: Names)
    ensures var clts := Resolve(reg, names);
      (|clts| > 0 && (forall j :: 0 <= j < |clts| ==> clts[j].Some?)) <==> Resolves(reg, names)
    ensures var clts := Resolve(reg, names);
      Resolves(reg, names) ==> Serves(reg, names, Values(clts))
  {
    match names
    case Name(s) =>
      assert Resolve(reg, names) == [Get(reg, Some(s))];
      if Get(reg, Some(s)).Some? {
        assert reg[Get(reg, Some(s)).value].name == s;
      } else {
        assert Resolve(reg, names)[0].None?;
      }
    case NameArray(ns) => ResolveArrayMeaning(reg, ns);
    case AllPeers =>
      assert Values(Resolve(reg, names)) == AllGroups(reg);
    case Unsupported =>
  }

  lemma ResolveArrayMeaning(reg: Registry, ns: seq<Option<string>>)
    ensures var clts := ResolveArray(reg, ns);
      (|clts| > 0 && (forall j :: 0 <= j < |clts| ==> clts[j].Some?)) <==> Resolves(reg, NameArray(ns))
    ensures var clts := ResolveArray(reg, ns);
      Resolves(reg, NameArray(ns)) ==> Serves(reg, NameArray(ns), Values(clts))
  {
    ResolveArrayNoFalse(reg, ns);
    if Resolves(reg, NameArray(ns)) {
      ResolveArrayServes(reg, ns);
    }
  }

  lemma ResolveArrayNoFalse(reg: Registry, ns: seq<Option<string>>)
    ensures var clts := ResolveArray(reg, ns);
      (forall j :: 0 <= j < |clts| ==> clts[j].Some?) <==> (forall i :: 0 <= i < |ns| ==> Get(reg, ns[i]).Some?)
  {
    var clts := ResolveArray(reg, ns);
    var look := Lookups(reg, ns);
    ResolveArrayFalse(reg, ns);
    assert (forall i :: 0 <= i < |ns| ==> Get(reg, ns[i]).Some?) <==> None !in look by {
      if None in look {
        var i :| 0 <= i < |look| && look[i] == None;
        assert Get(reg, ns[i]).None?;
      }
    }
    assert (forall j :: 0 <= j < |clts| ==> clts[j].Some?) <==> None !in clts by {
      if None in clts {
        var j :| 0 <= j < |clts| && clts[j] == None;
      }
    }
  }

  lemma ResolveArrayServes(reg: Registry, ns: seq<Option<string>>)
    requires forall i :: 0 <= i < |ns| ==> Get(reg, ns[i]).Some?
    ensures var clts := ResolveArray(reg, ns);
      (forall j :: 0 <= j < |clts| ==> clts[j].Some?) && Serves(reg, NameArray(ns), Values(clts))
  {
    var clts := ResolveArray(reg, ns);
    var look := Lookups(reg, ns);
    ResolveArrayNoFalse(reg, ns);
    ResolveArrayCovers(reg, ns);
    ResolveArrayDistinct(reg, ns);
    var groups := Values(clts);
    forall i | 0 <= i < |ns|
      ensures Get(reg, ns[i]).value in groups
    {
      assert look[i] in clts;
      var j :| 0 <= j < |clts| && clts[j] == look[i];
      assert groups[j] == Get(reg, ns[i]).value;
    }
    forall j | 0 <= j < |groups|
      ensures exists i :: 0 <= i < |ns| && Some(groups[j]) == Get(reg, ns[i])
    {
      assert clts[j] in look;
      var i :| 0 <= i < |look| && look[i] == clts[j];
      assert Some(groups[j]) == Get(reg, ns[i]);
    }
    forall j, k | 0 <= j < k < |groups|
      ensures reg[groups[j]].name != reg[groups[k]].name
    {
      assert clts[j] == Some(groups[j]) && clts[k] == Some(groups[k]);
    }
  }
}
