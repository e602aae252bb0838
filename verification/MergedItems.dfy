/**
  What merged headers, cookies and tokens are, by the places of the items they come from.
*/
module MergedItems {
  import opened Strings
  import opened Dedup
  import opened Profiles

  /** A header is kept under its trimmed key, with the value of the last one with that key, at the place of the
      first. */
  ghost predicate HeaderPlace(items: seq<HeaderKV>, out: HeaderKV, first: nat, last: nat) {
    && first < |items| && last < |items| && out == HeaderKV(Trim(items[last].key), items[last].value)
    && Trim(items[last].key) != "" && Trim(items[first].key) == Trim(items[last].key)
    && (forall j | 0 <= j < first :: Trim(items[j].key) != Trim(items[first].key))
    && (forall j | last < j < |items| :: Trim(items[j].key) != Trim(items[last].key))
  }

  lemma HeaderAt(items: seq<HeaderKV>, out: seq<HeaderKV>, firsts: seq<nat>, lasts: seq<nat>, i: nat)
    requires IsMergeOf(Headers(), items, out, firsts, lasts) && i < |out|
    ensures HeaderPlace(items, out[i], firsts[i], lasts[i])
  {
    assert FirstWithKey(Headers(), items, firsts[i]) && LastWithKey(Headers(), items, lasts[i]);
    assert forall x: HeaderKV :: Headers().key(x) == Trim(x.key);
  }

  lemma HeaderFound(items: seq<HeaderKV>, out: seq<HeaderKV>, firsts: seq<nat>, lasts: seq<nat>, x: HeaderKV)
    returns (i: nat)
    requires IsMergeOf(Headers(), items, out, firsts, lasts) && x in items && Trim(x.key) != ""
    ensures i < |out| && Trim(items[lasts[i]].key) == Trim(x.key)
  {
    assert Headers().key(x) == Trim(x.key) != "";
    i :| i < |out| && Headers().key(items[lasts[i]]) == Headers().key(x);
  }

  lemma MergedHeaders(base: seq<HeaderKV>, overlay: seq<HeaderKV>) returns (firsts: seq<nat>, lasts: seq<nat>)
    ensures var items, out := base + overlay, Merge(Headers(), base, overlay);
      && |out| == |firsts| == |lasts|
      && (forall i | 0 <= i < |out| :: HeaderPlace(items, out[i], firsts[i], lasts[i]))
      && (forall i, j | 0 <= i < j < |out| :: firsts[i] < firsts[j])
      && (forall x | x in items && Trim(x.key) != "" ::
            exists i: nat :: i < |out| && Trim(items[lasts[i]].key) == Trim(x.key))
  {
    firsts, lasts := MergeKeepsLast(Headers(), base, overlay);
    var items, out := base + overlay, Merge(Headers(), base, overlay);
    forall i | 0 <= i < |out| ensures HeaderPlace(items, out[i], firsts[i], lasts[i]) {
      HeaderAt(items, out, firsts, lasts, i);
    }
    forall x | x in items && Trim(x.key) != ""
      ensures exists i: nat :: i < |out| && Trim(items[lasts[i]].key) == Trim(x.key)
    {
      var i := HeaderFound(items, out, firsts, lasts, x);
    }
  }

  /** A cookie is the last one with its trimmed name, as it is, at the place of the first. */
  ghost predicate CookiePlace(items: seq<Cookie>, out: Cookie, first: nat, last: nat) {
    && first < |items| && last < |items| && out == items[last]
    && Trim(items[last].name) != "" && Trim(items[first].name) == Trim(items[last].name)
    && (forall j | 0 <= j < first :: Trim(items[j].name) != Trim(items[first].name))
    && (forall j | last < j < |items| :: Trim(items[j].name) != Trim(items[last].name))
  }

  lemma CookieAt(items: seq<Cookie>, out: seq<Cookie>, firsts: seq<nat>, lasts: seq<nat>, i: nat)
    requires IsMergeOf(Cookies(), items, out, firsts, lasts) && i < |out|
    ensures CookiePlace(items, out[i], firsts[i], lasts[i])
  {
    assert FirstWithKey(Cookies(), items, firsts[i]) && LastWithKey(Cookies(), items, lasts[i]);
    assert forall x: Cookie :: Cookies().key(x) == Trim(x.name);
  }

  lemma CookieFound(items: seq<Cookie>, out: seq<Cookie>, firsts: seq<nat>, lasts: seq<nat>, x: Cookie)
    returns (i: nat)
    requires IsMergeOf(Cookies(), items, out, firsts, lasts) && x in items && Trim(x.name) != ""
    ensures i < |out| && Trim(items[lasts[i]].name) == Trim(x.name)
  {
    assert Cookies().key(x) == Trim(x.name) != "";
    i :| i < |out| && Cookies().key(items[lasts[i]]) == Cookies().key(x);
  }

  lemma MergedCookies(base: seq<Cookie>, overlay: seq<Cookie>) returns (firsts: seq<nat>, lasts: seq<nat>)
    ensures var items, out := base + overlay, Merge(Cookies(), base, overlay);
      && |out| == |firsts| == |lasts|
      && (forall i | 0 <= i < |out| :: CookiePlace(items, out[i], firsts[i], lasts[i]))
      && (forall i, j | 0 <= i < j < |out| :: firsts[i] < firsts[j])
      && (forall x | x in items && Trim(x.name) != "" ::
            exists i: nat :: i < |out| && Trim(items[lasts[i]].name) == Trim(x.name))
  {
    firsts, lasts := MergeKeepsLast(Cookies(), base, overlay);
    var items, out := base + overlay, Merge(Cookies(), base, overlay);
    forall i | 0 <= i < |out| ensures CookiePlace(items, out[i], firsts[i], lasts[i]) {
      CookieAt(items, out, firsts, lasts, i);
    }
    forall x | x in items && Trim(x.name) != ""
      ensures exists i: nat :: i < |out| && Trim(items[lasts[i]].name) == Trim(x.name)
    {
      var i := CookieFound(items, out, firsts, lasts, x);
    }
  }

  /** A token is the last one of its kind for its header, query and cookie, at the place of the first. */
  ghost predicate TokenPlace(items: seq<Token>, out: Token, first: nat, last: nat) {
    && first < |items| && last < |items| && out == items[last]
    && items[last].kind != "" && TokenKey(items[first]) == TokenKey(items[last])
    && (forall j | 0 <= j < first :: TokenKey(items[j]) != TokenKey(items[first]))
    && (forall j | last < j < |items| :: TokenKey(items[j]) != TokenKey(items[last]))
  }

  lemma TokenAt(items: seq<Token>, out: seq<Token>, firsts: seq<nat>, lasts: seq<nat>, i: nat)
    requires IsMergeOf(Tokens(), items, out, firsts, lasts) && i < |out|
    ensures TokenPlace(items, out[i], firsts[i], lasts[i])
  {
    assert FirstWithKey(Tokens(), items, firsts[i]) && LastWithKey(Tokens(), items, lasts[i]);
    assert forall x: Token :: Tokens().key(x) == TokenKey(x);
  }

  lemma TokenFound(items: seq<Token>, out: seq<Token>, firsts: seq<nat>, lasts: seq<nat>, x: Token)
    returns (i: nat)
    requires IsMergeOf(Tokens(), items, out, firsts, lasts) && x in items && x.kind != ""
    ensures i < |out| && TokenKey(items[lasts[i]]) == TokenKey(x)
  {
    assert Tokens().key(x) == TokenKey(x) != "";
    i :| i < |out| && Tokens().key(items[lasts[i]]) == Tokens().key(x);
  }

  lemma MergedTokens(base: seq<Token>, overlay: seq<Token>) returns (firsts: seq<nat>, lasts: seq<nat>)
    ensures var items, out := base + overlay, Merge(Tokens(), base, overlay);
      && |out| == |firsts| == |lasts|
      && (forall i | 0 <= i < |out| :: TokenPlace(items, out[i], firsts[i], lasts[i]))
      && (forall i, j | 0 <= i < j < |out| :: firsts[i] < firsts[j])
      && (forall x | x in items && x.kind != "" ::
            exists i: nat :: i < |out| && TokenKey(items[lasts[i]]) == TokenKey(x))
  {
    firsts, lasts := MergeKeepsLast(Tokens(), base, overlay);
    var items, out := base + overlay, Merge(Tokens(), base, overlay);
    forall i | 0 <= i < |out| ensures TokenPlace(items, out[i], firsts[i], lasts[i]) {
      TokenAt(items, out, firsts, lasts, i);
    }
    forall x | x in items && x.kind != ""
      ensures exists i: nat :: i < |out| && TokenKey(items[lasts[i]]) == TokenKey(x)
    {
      var i := TokenFound(items, out, firsts, lasts, x);
    }
  }
}
