/**
  What a list of profiles merges to, field by field, without reference to how two of them merge. Later profiles win:
  the parents of a profile come before it in the list.
*/
module Inheritance {
  import opened Basics
  import opened Strings
  import opened Dedup
  import opened Profiles
  import opened ProfileGraph

  /** The last text of the list that is not empty, if there is one. */
  ghost predicate IsLastText(texts: seq<string>, text: string) {
    if text == "" then forall t | t in texts :: t == ""
    else exists k: nat :: k < |texts| && texts[k] == text && forall j | k < j < |texts| :: texts[j] == ""
  }

  lemma OneTextMore(texts: seq<string>, text: string, more: string)
    requires IsLastText(texts, text)
    ensures IsLastText(texts + [more], Overlay(text, more))
  {
    var all := texts + [more];
    if more != "" {
      assert all[|texts|] == more;
    } else if text != "" {
      var k: nat :| k < |texts| && texts[k] == text && forall j | k < j < |texts| :: texts[j] == "";
      assert all[k] == text;
    }
  }

  // Logins

  /** The login flows of the profiles that have one, in order. */
  function Logins(ps: seq<Profile>): seq<LoginFlow> {
    if ps == [] then []
    else
      var last := ps[|ps| - 1].login;
      Logins(ps[..|ps| - 1]) + if last.Some? then [last.value] else []
  }

  /** One text field of every flow. */
  function Field(ls: seq<LoginFlow>, field: LoginFlow -> string): seq<string> {
    seq(|ls|, i requires 0 <= i < |ls| => field(ls[i]))
  }

  ghost predicate LastOf(ls: seq<LoginFlow>, out: LoginFlow, field: LoginFlow -> string) {
    IsLastText(Field(ls, field), field(out))
  }

  /** Every text is the last one given; the auto-detect flag is that of the last flow and the confidence score that of
      the first. */
  ghost predicate IsMergedLogin(ls: seq<LoginFlow>, out: LoginFlow) {
    && ls != []
    && LastOf(ls, out, (l: LoginFlow) => l.url)
    && LastOf(ls, out, (l: LoginFlow) => l.userSelector)
    && LastOf(ls, out, (l: LoginFlow) => l.passSelector)
    && LastOf(ls, out, (l: LoginFlow) => l.submitSelector)
    && LastOf(ls, out, (l: LoginFlow) => l.username)
    && LastOf(ls, out, (l: LoginFlow) => l.password)
    && out.autoDetect == ls[|ls| - 1].autoDetect && out.confidenceScore == ls[0].confidenceScore
  }

  lemma OneFieldMore(ls: seq<LoginFlow>, l: LoginFlow, out: LoginFlow, next: LoginFlow, field: LoginFlow -> string)
    requires LastOf(ls, out, field) && field(next) == Overlay(field(out), field(l))
    ensures LastOf(ls + [l], next, field)
  {
    OneTextMore(Field(ls, field), field(out), field(l));
    assert Field(ls + [l], field) == Field(ls, field) + [field(l)];
  }

  lemma OneLoginMore(ls: seq<LoginFlow>, l: LoginFlow, out: LoginFlow)
    requires IsMergedLogin(ls, out)
    ensures IsMergedLogin(ls + [l], MergeLogin(Some(out), Some(l)).value)
  {
    var next := MergeLogin(Some(out), Some(l)).value;
    OneFieldMore(ls, l, out, next, (l: LoginFlow) => l.url);
    OneFieldMore(ls, l, out, next, (l: LoginFlow) => l.userSelector);
    OneFieldMore(ls, l, out, next, (l: LoginFlow) => l.passSelector);
    OneFieldMore(ls, l, out, next, (l: LoginFlow) => l.submitSelector);
    OneFieldMore(ls, l, out, next, (l: LoginFlow) => l.username);
    OneFieldMore(ls, l, out, next, (l: LoginFlow) => l.password);
  }

  lemma OnlyOneField(l: LoginFlow, field: LoginFlow -> string)
    ensures LastOf([l], l, field)
  {
    assert Field([l], field)[0] == field(l);
  }

  lemma OnlyOneLogin(l: LoginFlow)
    ensures IsMergedLogin([l], l)
  {
    OnlyOneField(l, (l: LoginFlow) => l.url);
    OnlyOneField(l, (l: LoginFlow) => l.userSelector);
    OnlyOneField(l, (l: LoginFlow) => l.passSelector);
    OnlyOneField(l, (l: LoginFlow) => l.submitSelector);
    OnlyOneField(l, (l: LoginFlow) => l.username);
    OnlyOneField(l, (l: LoginFlow) => l.password);
  }

  /** What the merge of a list says about the login, given the flows in it. */
  ghost predicate LoginFits(ls: seq<LoginFlow>, out: Option<LoginFlow>) {
    if out.Some? then IsMergedLogin(ls, out.value) else ls == []
  }

  lemma LoginNext(ls: seq<LoginFlow>, out: Option<LoginFlow>, more: Option<LoginFlow>)
    requires LoginFits(ls, out)
    ensures LoginFits(ls + if more.Some? then [more.value] else [], MergeLogin(out, more))
  {
    if more.None? {
      assert ls + [] == ls;
    } else if out.Some? {
      OneLoginMore(ls, more.value, out.value);
    } else {
      OnlyOneLogin(more.value);
      assert ls + [more.value] == [more.value];
    }
  }

  lemma {:induction false} LoginsFit(ps: seq<Profile>)
    ensures LoginFits(Logins(ps), MergeAll(ps).login)
  {
    if ps != [] {
      var init, last := ps[..|ps| - 1], ps[|ps| - 1];
      LoginsFit(init);
      LoginNext(Logins(init), MergeAll(init).login, last.login);
    }
  }

  lemma {:induction false} NoLogins(ps: seq<Profile>)
    ensures Logins(ps) != [] <==> exists p :: p in ps && p.login.Some?
  {
    if ps != [] {
      var init, last := ps[..|ps| - 1], ps[|ps| - 1];
      NoLogins(init);
      assert ps == init + [last];
    }
  }

  /** A list has a login exactly if some profile has one, and it is the merged one of all flows in it. */
  lemma MergedLogin(ps: seq<Profile>)
    ensures MergeAll(ps).login.Some? <==> exists p :: p in ps && p.login.Some?
    ensures MergeAll(ps).login.Some? ==> IsMergedLogin(Logins(ps), MergeAll(ps).login.value)
  {
    LoginsFit(ps);
    NoLogins(ps);
  }

  // Names and parents

  ghost predicate IsLastParents(ps: seq<Profile>, parents: seq<string>) {
    if parents == [] then forall p | p in ps :: p.parents == []
    else exists k: nat :: k < |ps| && ps[k].parents == parents && forall j | k < j < |ps| :: ps[j].parents == []
  }

  lemma {:induction false} MergedParents(ps: seq<Profile>)
    ensures IsLastParents(ps, MergeAll(ps).parents)
  {
    if ps != [] {
      var init, last := ps[..|ps| - 1], ps[|ps| - 1];
      MergedParents(init);
      OneParentsMore(init, last, MergeAll(init).parents);
      assert ps == init + [last];
    }
  }

  lemma OneParentsMore(ps: seq<Profile>, p: Profile, parents: seq<string>)
    requires IsLastParents(ps, parents)
    ensures IsLastParents(ps + [p], if |p.parents| > 0 then p.parents else parents)
  {
    var all := ps + [p];
    if p.parents != [] {
      assert all[|ps|] == p;
    } else if parents != [] {
      var k: nat :| k < |ps| && ps[k].parents == parents && forall j | k < j < |ps| :: ps[j].parents == [];
      assert all[k] == ps[k];
    }
  }

  /** On success the resolved login has, field by field, what the last profile of the post-order list says; the parents
      are those of the last profile that has any. The child comes last, so its credentials win over its parents'. */
  lemma LoginIsInherited(vault: Vault, name: string, path: set<string>)
    requires MergeFrom(vault, name, path).Ok?
    ensures var ps, merged := PostOrder(vault, name, path).value, MergeFrom(vault, name, path).value;
      && (merged.login.Some? <==> exists p :: p in ps && p.login.Some?)
      && (merged.login.Some? ==> IsMergedLogin(Logins(ps), merged.login.value))
      && IsLastParents(ps, merged.parents)
      && ps != [] && ps[|ps| - 1] == Find(vault, name).value
  {
    var ps := PostOrder(vault, name, path).value;
    MergedLogin(ps);
    MergedParents(ps);
  }

  // The order of parents

  /** The entries of a list of parents, as they are looked up. */
  lemma {:induction false} ParentNamesAre(parents: seq<string>, p: string)
    ensures p in ParentNames(parents) <==> p != "" && exists q :: q in parents && Trim(q) == p
  {
    if parents != [] {
      var init, last := parents[..|parents| - 1], parents[|parents| - 1];
      ParentNamesAre(init, p);
      assert parents == init + [last];
    }
  }

  /** The parents that are not blank, each merged for itself, in the order in which they are listed. */
  function MergedParentsOf(vault: Vault, parents: seq<string>, path: set<string>): seq<Result<Profile>> {
    if parents == [] then []
    else
      (if Trim(parents[0]) == "" then [] else [MergeFrom(vault, Trim(parents[0]), path)])
      + MergedParentsOf(vault, parents[1..], path)
  }

  ghost predicate AllOk(rs: seq<Result<Profile>>) {
    forall r | r in rs :: r.Ok?
  }

  ghost function Values(rs: seq<Result<Profile>>): seq<Profile>
    requires AllOk(rs)
  {
    seq(|rs|, i requires 0 <= i < |rs| => assert rs[i] in rs; rs[i].value)
  }

  /** The parents merged one after the other give what their post-order lists, put together, give. */
  ghost predicate OneByOne(vault: Vault, parents: seq<string>, path: set<string>)
    requires PostOrderOf(vault, ParentNames(parents), path).Ok?
  {
    var rs := MergedParentsOf(vault, parents, path);
    AllOk(rs) && MergeAll(PostOrderOf(vault, ParentNames(parents), path).value) == MergeAll(Values(rs))
  }

  lemma NoParents(vault: Vault, path: set<string>)
    ensures PostOrderOf(vault, ParentNames([]), path).Ok? && OneByOne(vault, [], path)
  {
  }

  lemma OneParent(vault: Vault, init: seq<string>, last: string, path: set<string>)
    requires PostOrderOf(vault, ParentNames(init), path).Ok? && OneByOne(vault, init, path)
    requires PostOrderOf(vault, ParentNames(init + [last]), path).Ok?
    ensures OneByOne(vault, init + [last], path)
  {
    if Trim(last) == "" {
      BlankParent(vault, init, last, path);
    } else {
      OneParentMore(vault, init, last, path);
    }
  }

  lemma {:induction false} ParentsOneByOne(vault: Vault, parents: seq<string>, path: set<string>)
    requires PostOrderOf(vault, ParentNames(parents), path).Ok?
    ensures OneByOne(vault, parents, path)
    decreases |parents|
  {
    if parents == [] {
      NoParents(vault, path);
    } else {
      var init, last := parents[..|parents| - 1], parents[|parents| - 1];
      assert parents == init + [last];
      OneParentOk(vault, init, last, path);
      ParentsOneByOne(vault, init, path);
      OneParent(vault, init, last, path);
    }
  }

  lemma OneParentOk(vault: Vault, init: seq<string>, last: string, path: set<string>)
    requires PostOrderOf(vault, ParentNames(init + [last]), path).Ok?
    ensures PostOrderOf(vault, ParentNames(init), path).Ok?
  {
    ParentNamesBack(init, last);
    if Trim(last) == "" {
      assert ParentNames(init) + [] == ParentNames(init);
    } else {
      PostOrderLast(vault, ParentNames(init), Trim(last), path);
    }
  }

  lemma BlankParent(vault: Vault, init: seq<string>, last: string, path: set<string>)
    requires Trim(last) == "" && PostOrderOf(vault, ParentNames(init), path).Ok? && OneByOne(vault, init, path)
    ensures ParentNames(init + [last]) == ParentNames(init) && OneByOne(vault, init + [last], path)
  {
    ParentNamesBack(init, last);
    ParentsBack(vault, init, last, path);
    assert ParentNames(init) + [] == ParentNames(init);
    assert MergedParentsOf(vault, init, path) + [] == MergedParentsOf(vault, init, path);
  }

  lemma PostOrderLast(vault: Vault, names: seq<string>, name: string, path: set<string>)
    requires PostOrderOf(vault, names + [name], path).Ok?
    ensures PostOrderOf(vault, names, path).Ok? && PostOrder(vault, name, path).Ok?
    ensures PostOrderOf(vault, names + [name], path).value
         == PostOrderOf(vault, names, path).value + PostOrder(vault, name, path).value
  {
    assert (names + [name])[..|names|] == names;
  }

  lemma ParentNamesBack(init: seq<string>, last: string)
    ensures ParentNames(init + [last]) == ParentNames(init) + ParentName(last)
  {
    assert (init + [last])[..|init|] == init;
  }

  lemma ValuesBack(rs: seq<Result<Profile>>, r: Result<Profile>)
    requires AllOk(rs) && r.Ok?
    ensures AllOk(rs + [r]) && MergeAll(Values(rs + [r])) == MergeProfile(MergeAll(Values(rs)), r.value)
  {
    assert forall x | x in rs + [r] :: x in rs || x == r;
    assert Values(rs + [r]) == Values(rs) + [r.value];
    assert (Values(rs) + [r.value])[..|rs|] == Values(rs);
  }

  lemma OneParentMore(vault: Vault, init: seq<string>, last: string, path: set<string>)
    requires Trim(last) != "" && PostOrderOf(vault, ParentNames(init + [last]), path).Ok?
    requires PostOrderOf(vault, ParentNames(init), path).Ok? && OneByOne(vault, init, path)
    ensures OneByOne(vault, init + [last], path)
  {
    var names, name := ParentNames(init), Trim(last);
    ParentNamesBack(init, last);
    PostOrderLast(vault, names, name, path);
    ParentsBack(vault, init, last, path);
    MergeAllConcat(PostOrderOf(vault, names, path).value, PostOrder(vault, name, path).value);
    ValuesBack(MergedParentsOf(vault, init, path), MergeFrom(vault, name, path));
  }

  lemma {:induction false} ParentsBack(vault: Vault, init: seq<string>, last: string, path: set<string>)
    ensures MergedParentsOf(vault, init + [last], path)
         == MergedParentsOf(vault, init, path)
            + if Trim(last) == "" then [] else [MergeFrom(vault, Trim(last), path)]
    decreases |init|
  {
    var more := if Trim(last) == "" then [] else [MergeFrom(vault, Trim(last), path)];
    if init == [] {
      assert [] + [last] == [last] && [last][1..] == [];
      assert more + [] == more;
    } else {
      ParentsBack(vault, init[1..], last, path);
      assert (init + [last])[1..] == init[1..] + [last];
      Regroup(if Trim(init[0]) == "" then [] else [MergeFrom(vault, Trim(init[0]), path)],
              MergedParentsOf(vault, init[1..], path), more);
    }
  }

  /** On success a profile is the merge of its parents, each merged for itself, in the order in which it lists them, and
      of itself at the end: a later parent wins over an earlier one, and the profile over all of them. */
  lemma ParentsInOrder(vault: Vault, name: string, path: set<string>)
    requires MergeFrom(vault, name, path).Ok?
    ensures var own := Find(vault, name).value; var rs := MergedParentsOf(vault, own.parents, path + {name});
      AllOk(rs) && MergeFrom(vault, name, path).value == MergeProfile(MergeAll(Values(rs)), own)
  {
    var own := Find(vault, name).value;
    var ps := PostOrderOf(vault, ParentNames(own.parents), path + {name}).value;
    assert (ps + [own])[..|ps|] == ps;
    ParentsOneByOne(vault, own.parents, path + {name});
  }

  // Which failure

  lemma {:induction false} FirstFailing(vault: Vault, parents: seq<string>, path: set<string>) returns (p: string)
    requires PostOrderOf(vault, parents, path).Err?
    ensures p in parents && PostOrder(vault, p, path) == Err(PostOrderOf(vault, parents, path).error)
    decreases |parents|
  {
    var init, last := parents[..|parents| - 1], parents[|parents| - 1];
    assert parents == init + [last];
    if PostOrderOf(vault, init, path).Err? {
      p := FirstFailing(vault, init, path);
    } else {
      p := last;
    }
  }

  /** What the error names: the end of a walk that is not in the vault, or that is on the path or earlier on the
      walk. */
  ghost predicate Explains(vault: Vault, path: set<string>, ws: seq<string>, e: Failure) {
    ws != [] &&
    var n := ws[|ws| - 1];
    match e
    case NameRequired => false
    case NotFound(missing) => missing == n && n !in Names(vault)
    case CycleDetected(repeated) => repeated == n && (n in path || n in ws[..|ws| - 1])
  }

  lemma ExplainsBelow(vault: Vault, path: set<string>, name: string, above: seq<string>, e: Failure)
    requires Explains(vault, path + {name}, above, e)
    ensures Explains(vault, path, [name] + above, e)
  {
    var ws := [name] + above;
    assert ws[..|ws| - 1] == [name] + above[..|above| - 1];
  }

  lemma {:induction false} ErrorNamesWalk(vault: Vault, name: string, path: set<string>) returns (ws: seq<string>)
    requires Trim(name) != "" && PostOrder(vault, name, path).Err?
    ensures Walk(vault, ws) && ws[0] == name && Explains(vault, path, ws, PostOrder(vault, name, path).error)
    decreases |Names(vault) - path|
  {
    ws := [name];
    if name !in path && name in Names(vault) {
      var parents := ParentNames(Find(vault, name).value.parents);
      ParentsAreNotBlank(Find(vault, name).value.parents);
      var p := FirstFailing(vault, parents, path + {name});
      Shrinks(vault, name, path);
      var above := ErrorNamesWalk(vault, p, path + {name});
      WalkExtends(vault, name, above);
      ExplainsBelow(vault, path, name, above, PostOrder(vault, name, path).error);
      ws := [name] + above;
    }
  }

  /** The error of a failed merge: a blank name asks for one; otherwise it names the end of a walk up from the profile,
      as not found when that is not in the vault, as a cycle when the walk meets it twice. */
  lemma ErrorMeans(vault: Vault, name: string)
    requires MergeFrom(vault, name, {}).Err?
    ensures MergeFrom(vault, name, {}).error == NameRequired <==> Trim(name) == ""
    ensures Trim(name) != "" ==>
              exists ws :: Walk(vault, ws) && ws[0] == name && Explains(vault, {}, ws, MergeFrom(vault, name, {}).error)
  {
    if Trim(name) != "" {
      var ws := ErrorNamesWalk(vault, name, {});
    }
  }
}
