/**
  Profile inheritance: the depth-first merge over a parent graph that may be cyclic, with the set of names on the
  current path mutated and restored.
*/
module ProfileGraph {
  import opened Basics
  import opened Strings
  import opened Dedup
  import opened Profiles

  datatype Failure = NameRequired | CycleDetected(name: string) | NotFound(name: string)

  datatype Result<+T> = Ok(value: T) | Err(error: Failure)

  /** The profiles of a vault, in order. */
  type Vault = seq<Profile>

  function Names(vault: Vault): set<string> {
    set p | p in vault :: p.name
  }

  /** The first profile of that name. */
  function Find(vault: Vault, name: string): (r: Option<Profile>)
    ensures r.Some? <==> name in Names(vault)
    ensures r.Some? ==> r.value in vault && r.value.name == name
  {
    if vault == [] then None
    else if vault[0].name == name then Some(vault[0])
    else
      assert forall p | p in vault && p.name == name :: p in vault[1..];
      Find(vault[1..], name)
  }

  lemma {:induction false} FindsFirst(vault: Vault, name: string) returns (i: nat)
    requires name in Names(vault)
    ensures i < |vault| && Find(vault, name) == Some(vault[i]) && vault[i].name == name
    ensures forall j | 0 <= j < i :: vault[j].name != name
    decreases |vault|
  {
    if vault[0].name == name {
      i := 0;
    } else {
      assert forall p | p in vault && p.name == name :: p in vault[1..];
      var k := FindsFirst(vault[1..], name);
      i := k + 1;
      assert forall j | 0 < j < i :: vault[j] == vault[1..][j - 1];
    }
  }

  method FindProfile(vault: Vault, name: string) returns (r: Option<Profile>)
    ensures r == Find(vault, name)
  {
    for i := 0 to |vault|
      invariant Find(vault, name) == Find(vault[i..], name)
    {
      if vault[i].name == name {
        return Some(vault[i]);
      }
      assert vault[i..][1..] == vault[i + 1..];
    }
    r := None;
  }

  /** The names an entry inherits from: trimmed, blank ones skipped. */
  function ParentNames(parents: seq<string>): seq<string> {
    if parents == [] then [] else ParentNames(parents[..|parents| - 1]) + ParentName(parents[|parents| - 1])
  }

  function ParentName(parent: string): seq<string> {
    if Trim(parent) == "" then [] else [Trim(parent)]
  }

  /** The profiles that are merged for `name`, in post-order and with repeats; `path` holds the names being merged. */
  function PostOrder(vault: Vault, name: string, path: set<string>): (r: Result<seq<Profile>>)
    decreases |Names(vault) - path|, 0
  {
    if Trim(name) == "" then Err(NameRequired)
    else if name in path then Err(CycleDetected(name))
    else
      var found := Find(vault, name);
      if found.None? then Err(NotFound(name))
      else
        Shrinks(vault, name, path);
        match PostOrderOf(vault, ParentNames(found.value.parents), path + {name})
        case Err(e) => Err(e)
        case Ok(ps) => Ok(ps + [found.value])
  }

  /** The same for the parents in turn, up to the first failure. */
  function PostOrderOf(vault: Vault, parents: seq<string>, path: set<string>): (r: Result<seq<Profile>>)
    decreases |Names(vault) - path|, |parents| + 1
  {
    if parents == [] then Ok([])
    else
      match PostOrderOf(vault, parents[..|parents| - 1], path)
      case Err(e) => Err(e)
      case Ok(ps) =>
        match PostOrder(vault, parents[|parents| - 1], path)
        case Err(e) => Err(e)
        case Ok(qs) => Ok(ps + qs)
  }

  lemma Shrinks(vault: Vault, name: string, path: set<string>)
    requires name in Names(vault) && name !in path
    ensures |Names(vault) - (path + {name})| < |Names(vault) - path|
  {
    assert Names(vault) - (path + {name}) == (Names(vault) - path) - {name};
  }

  /** The map `visited` that all recursive calls share. */
  class PathSet {
    var names: set<string>

    constructor ()
      ensures names == {}
    {
      names := {};
    }
  }

  lemma {:induction false} ParentNamesConcat(x: seq<string>, y: seq<string>)
    ensures ParentNames(x + y) == ParentNames(x) + ParentNames(y)
  {
    if y == [] {
      assert x + y == x;
    } else {
      InitOfConcat(x, y);
      ParentNamesConcat(x, y[..|y| - 1]);
      Regroup(ParentNames(x), ParentNames(y[..|y| - 1]), ParentName(y[|y| - 1]));
    }
  }

  /** The flat merge of the post-order list. */
  function Merged(r: Result<seq<Profile>>): Result<Profile> {
    match r
    case Err(e) => Err(e)
    case Ok(ps) => Ok(MergeAll(ps))
  }

  function MergeFrom(vault: Vault, name: string, path: set<string>): Result<Profile> {
    Merged(PostOrder(vault, name, path))
  }

  /** The merge of the first `n` entries of `parents`. */
  function MergeFirst(vault: Vault, parents: seq<string>, n: nat, path: set<string>): Result<Profile>
    requires n <= |parents|
  {
    Merged(PostOrderOf(vault, ParentNames(parents[..n]), path))
  }

  /** Returns the flat merge of the post-order list, and leaves the path set as it found it on every exit. */
  method MergeProfiles(vault: Vault, name: string, visited: PathSet) returns (r: Result<Profile>)
    modifies visited
    ensures visited.names == old(visited.names)
    ensures r == MergeFrom(vault, name, old(visited.names))
    decreases |Names(vault) - visited.names|
  {
    if Trim(name) == "" {
      return Err(NameRequired);
    }
    if name in visited.names {
      return Err(CycleDetected(name));
    }
    ghost var path := visited.names;
    visited.names := visited.names + {name};

    var profile := FindProfile(vault, name);
    if profile.None? {
      visited.names := visited.names - {name};
      return Err(NotFound(name));
    }
    Shrinks(vault, name, path);
    var parents := profile.value.parents;
    var merged := NO_PROFILE;
    for i := 0 to |parents|
      invariant visited.names == path + {name}
      invariant MergeFirst(vault, parents, i, path + {name}) == Ok(merged)
    {
      var parent := Trim(parents[i]);
      NextParent(vault, parents, i, path + {name});
      if parent == "" {
        continue;
      }
      var below := MergeProfiles(vault, parent, visited);
      if below.Err? {
        FailsWhole(vault, name, path, i + 1);
        visited.names := visited.names - {name};
        return Err(below.error);
      }
      merged := MergeTwo(merged, below.value);
    }
    Closes(vault, name, path, merged);
    merged := MergeTwo(merged, profile.value);
    visited.names := visited.names - {name};
    r := Ok(merged);
  }

  /** The profile itself is merged last. */
  lemma Closes(vault: Vault, name: string, path: set<string>, merged: Profile)
    requires Trim(name) != "" && name !in path && Find(vault, name).Some?
    requires var parents := Find(vault, name).value.parents;
      MergeFirst(vault, parents, |parents|, path + {name}) == Ok(merged)
    ensures MergeFrom(vault, name, path) == Ok(MergeProfile(merged, Find(vault, name).value))
  {
    var own := Find(vault, name).value;
    assert own.parents[..|own.parents|] == own.parents;
    var ps := PostOrderOf(vault, ParentNames(own.parents), path + {name}).value;
    OwnIsLast(vault, name, path, ps);
    MergeAllBack(ps, own);
  }

  lemma OwnIsLast(vault: Vault, name: string, path: set<string>, ps: seq<Profile>)
    requires Trim(name) != "" && name !in path && Find(vault, name).Some?
    requires PostOrderOf(vault, ParentNames(Find(vault, name).value.parents), path + {name}) == Ok(ps)
    ensures PostOrder(vault, name, path) == Ok(ps + [Find(vault, name).value])
  {
  }

  lemma MergeAllBack(ps: seq<Profile>, p: Profile)
    ensures MergeAll(ps + [p]) == MergeProfile(MergeAll(ps), p)
  {
    assert (ps + [p])[..|ps|] == ps;
  }

  lemma NextParent(vault: Vault, parents: seq<string>, i: nat, path: set<string>)
    requires i < |parents| && MergeFirst(vault, parents, i, path).Ok?
    ensures var parent, before := Trim(parents[i]), MergeFirst(vault, parents, i, path);
      MergeFirst(vault, parents, i + 1, path) ==
        if parent == "" then before
        else
          match MergeFrom(vault, parent, path)
          case Err(e) => Err(e)
          case Ok(p) => Ok(MergeProfile(before.value, p))
  {
    assert parents[..i + 1][..i] == parents[..i];
    var before, parent := ParentNames(parents[..i]), Trim(parents[i]);
    if parent == "" {
      assert before + [] == before;
    } else {
      assert (before + [parent])[..|before|] == before;
      var ps, below := PostOrderOf(vault, before, path).value, PostOrder(vault, parent, path);
      if below.Ok? {
        MergeAllConcat(ps, below.value);
      }
    }
  }

  lemma ParentNamesSplit(parents: seq<string>, n: nat) returns (rest: seq<string>)
    requires n <= |parents|
    ensures ParentNames(parents) == ParentNames(parents[..n]) + rest
  {
    var first, last := parents[..n], parents[n..];
    rest := ParentNames(last);
    assert parents == first + last;
    ParentNamesConcat(first, last);
  }

  lemma ParentsFail(vault: Vault, parents: seq<string>, path: set<string>, n: nat)
    requires n <= |parents| && PostOrderOf(vault, ParentNames(parents[..n]), path).Err?
    ensures PostOrderOf(vault, ParentNames(parents), path) == PostOrderOf(vault, ParentNames(parents[..n]), path)
  {
    var rest := ParentNamesSplit(parents, n);
    FirstFailure(vault, ParentNames(parents[..n]), rest, path);
  }

  /** The failure of one parent is the failure of the whole merge. */
  lemma FailsWhole(vault: Vault, name: string, path: set<string>, n: nat)
    requires Trim(name) != "" && name !in path && Find(vault, name).Some?
    requires n <= |Find(vault, name).value.parents|
    requires MergeFirst(vault, Find(vault, name).value.parents, n, path + {name}).Err?
    ensures MergeFrom(vault, name, path) == MergeFirst(vault, Find(vault, name).value.parents, n, path + {name})
  {
    ParentsFail(vault, Find(vault, name).value.parents, path + {name}, n);
  }

  lemma {:induction false} FirstFailure(vault: Vault, x: seq<string>, y: seq<string>, path: set<string>)
    requires PostOrderOf(vault, x, path).Err?
    ensures PostOrderOf(vault, x + y, path) == PostOrderOf(vault, x, path)
  {
    if y == [] {
      assert x + y == x;
    } else {
      FirstFailure(vault, x, y[..|y| - 1], path);
      assert (x + y)[..|x + y| - 1] == x + y[..|y| - 1];
    }
  }

  /** On success the headers, cookies and tokens are one order-preserving pass over everything in the post-order
      list. */
  lemma NestedIsFlat(vault: Vault, name: string, path: set<string>)
    requires MergeFrom(vault, name, path).Ok?
    ensures var ps, merged := PostOrder(vault, name, path).value, MergeFrom(vault, name, path).value;
      && merged.headers == Norm(Headers(), AllHeaders(ps))
      && merged.cookies == Norm(Cookies(), AllCookies(ps))
      && merged.tokens == Norm(Tokens(), AllTokens(ps))
      && ps != [] && ps[|ps| - 1].name == name && merged.name == name
  {
    MergeAllIsFlat(PostOrder(vault, name, path).value);
    assert Trim("") == "";
  }

  // When it succeeds

  /** `child` inherits from `parent`. */
  ghost predicate Inherits(vault: Vault, child: string, parent: string) {
    child in Names(vault) && parent in ParentNames(Find(vault, child).value.parents)
  }

  /** A walk up the inheritance graph. */
  ghost predicate Walk(vault: Vault, ws: seq<string>) {
    ws != [] && forall i, j | 0 <= i < j < |ws| && j == i + 1 :: Inherits(vault, ws[i], ws[j])
  }

  /** Every name on the walk is in the vault, none is on the path, and none comes twice. */
  ghost predicate Clean(vault: Vault, path: set<string>, ws: seq<string>) {
    && (forall w | w in ws :: w in Names(vault) && w !in path)
    && Distinct(ws)
  }

  lemma {:induction false} ParentsAreNotBlank(parents: seq<string>)
    ensures forall p | p in ParentNames(parents) :: Trim(p) != ""
  {
    if parents != [] {
      TrimTrims(parents[|parents| - 1]);
      ParentsAreNotBlank(parents[..|parents| - 1]);
    }
  }

  lemma {:induction false} AllParentsSucceed(vault: Vault, parents: seq<string>, path: set<string>)
    ensures PostOrderOf(vault, parents, path).Ok? <==> forall p | p in parents :: PostOrder(vault, p, path).Ok?
    decreases |parents|
  {
    if parents != [] {
      var init, last := parents[..|parents| - 1], parents[|parents| - 1];
      AllParentsSucceed(vault, init, path);
      assert parents == init + [last];
      assert PostOrderOf(vault, parents, path).Ok? <==>
               PostOrderOf(vault, init, path).Ok? && PostOrder(vault, last, path).Ok?;
      assert forall p | p in init :: p in parents;
      assert last in parents;
      forall p | p in parents ensures p in init || p == last {}
    }
  }

  lemma {:induction false} SuccessMeansClean(vault: Vault, name: string, path: set<string>, ws: seq<string>)
    requires PostOrder(vault, name, path).Ok? && Walk(vault, ws) && ws[0] == name
    ensures Clean(vault, path, ws)
    decreases |ws|
  {
    if |ws| > 1 {
      var parent, rest := ws[1], ws[1..];
      assert Inherits(vault, ws[0], ws[1]);
      AllParentsSucceed(vault, ParentNames(Find(vault, name).value.parents), path + {name});
      assert Walk(vault, rest) by {
        assert forall i | 0 <= i < |rest| :: rest[i] == ws[i + 1];
      }
      SuccessMeansClean(vault, parent, path + {name}, rest);
      assert ws == [name] + rest;
    }
  }

  lemma {:induction false} FailureHasWalk(vault: Vault, name: string, path: set<string>) returns (ws: seq<string>)
    requires Trim(name) != "" && PostOrder(vault, name, path).Err?
    ensures Walk(vault, ws) && ws[0] == name && !Clean(vault, path, ws)
    decreases |Names(vault) - path|
  {
    ws := [name];
    if name !in path && name in Names(vault) {
      var parents := ParentNames(Find(vault, name).value.parents);
      AllParentsSucceed(vault, parents, path + {name});
      var p :| p in parents && PostOrder(vault, p, path + {name}).Err?;
      ParentsAreNotBlank(Find(vault, name).value.parents);
      Shrinks(vault, name, path);
      var above := FailureHasWalk(vault, p, path + {name});
      ws := [name] + above;
      WalkExtends(vault, name, above);
      UncleanExtends(vault, name, path, above);
    } else {
      assert name in ws;
    }
  }

  lemma WalkExtends(vault: Vault, name: string, above: seq<string>)
    requires Walk(vault, above) && Inherits(vault, name, above[0])
    ensures Walk(vault, [name] + above)
  {
  }

  lemma UncleanExtends(vault: Vault, name: string, path: set<string>, above: seq<string>)
    requires !Clean(vault, path + {name}, above)
    ensures !Clean(vault, path, [name] + above)
  {
    var ws := [name] + above;
    if Clean(vault, path, ws) {
      forall w | w in above ensures w in Names(vault) && w !in path + {name} {
        var i :| 0 <= i < |above| && above[i] == w;
        assert ws[i + 1] == w && ws[0] == name && w in ws;
      }
      assert forall i | 0 <= i < |above| :: above[i] == ws[i + 1];
    }
  }

  /** Started afresh, the merge succeeds exactly when the name is not blank and every walk up from it stays in the
      vault and never meets a name twice: the reachable graph is closed and has no cycle. Diamonds are no obstacle. */
  lemma SucceedsIff(vault: Vault, name: string)
    ensures MergeFrom(vault, name, {}).Ok? <==>
              Trim(name) != "" && forall ws | Walk(vault, ws) && ws[0] == name :: Clean(vault, {}, ws)
  {
    if PostOrder(vault, name, {}).Ok? {
      forall ws | Walk(vault, ws) && ws[0] == name ensures Clean(vault, {}, ws) {
        SuccessMeansClean(vault, name, {}, ws);
      }
    } else if Trim(name) != "" {
      var ws := FailureHasWalk(vault, name, {});
    }
  }
}
