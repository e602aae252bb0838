/**
  Auth profiles and how two of them merge: headers, cookies and tokens by key, the other fields by overlay.
*/
module Profiles {
  import opened Basics
  import opened Strings
  import opened Dedup

  datatype HeaderKV = HeaderKV(key: string, value: string)

  datatype Cookie = Cookie(name: string, value: string, domain: string, path: string, expires: Option<int>,
                           secure: bool, httpOnly: bool, sameSite: string)

  datatype Token = Token(kind: string, value: string, header: string, query: string, cookie: string)

  datatype LoginFlow = LoginFlow(url: string, userSelector: string, passSelector: string, submitSelector: string,
                                 username: string, password: string, autoDetect: bool, confidenceScore: real)

  datatype Profile = Profile(name: string, parents: seq<string>, headers: seq<HeaderKV>, cookies: seq<Cookie>,
                             tokens: seq<Token>, login: Option<LoginFlow>)

  const NO_PROFILE: Profile := Profile("", [], [], [], [], None)

  function TokenKey(t: Token): string {
    if t.kind == "" then "" else t.kind + "|" + t.header + "|" + t.query + "|" + t.cookie
  }

  function TrimKey(h: HeaderKV): HeaderKV {
    HeaderKV(Trim(h.key), h.value)
  }

  /** Headers are kept under their trimmed key; cookies and tokens are kept as they are. */
  function Headers(): Scheme<HeaderKV> {
    Scheme((h: HeaderKV) => Trim(h.key), TrimKey)
  }

  function Cookies(): Scheme<Cookie> {
    Scheme((c: Cookie) => Trim(c.name), (c: Cookie) => c)
  }

  function Tokens(): Scheme<Token> {
    Scheme(TokenKey, (t: Token) => t)
  }

  lemma SchemesAreLawful()
    ensures Lawful(Headers()) && Lawful(Cookies()) && Lawful(Tokens())
  {
    forall h: HeaderKV ensures Headers().key(Headers().canon(h)) == Headers().key(h)
      && Headers().canon(Headers().canon(h)) == Headers().canon(h)
    {
      TrimTrims(h.key);
    }
  }

  // When token keys keep tokens apart

  const BAR: char := '|'

  /** The same token but for its value. */
  predicate SameFields(a: Token, b: Token) {
    a.kind == b.kind && a.header == b.header && a.query == b.query && a.cookie == b.cookie
  }

  /** The separator of the key, which is not escaped, is in none of the fields; as its first character the kind may
      have one. */
  predicate Plain(t: Token)
    requires t.kind != ""
  {
    BAR !in t.kind[1..] && BAR !in t.header && BAR !in t.query && BAR !in t.cookie
  }

  ghost predicate OwnKey(a: Token) {
    forall b: Token | b.kind != "" && TokenKey(b) == TokenKey(a) :: SameFields(a, b)
  }

  lemma KeyText(t: Token)
    requires t.kind != ""
    ensures TokenKey(t) != "" && TokenKey(t)[0] == t.kind[0]
    ensures TokenKey(t)[1..] == t.kind[1..] + [BAR] + (t.header + [BAR] + (t.query + [BAR] + t.cookie))
  {
  }

  /** The key falls into the parts of its fields. */
  lemma KeyParts(t: Token)
    requires t.kind != ""
    ensures Split(TokenKey(t)[1..], BAR)
         == Split(t.kind[1..], BAR) + (Split(t.header, BAR) + (Split(t.query, BAR) + Split(t.cookie, BAR)))
  {
    KeyText(t);
    SplitJoin(t.query, BAR, t.cookie);
    SplitJoin(t.header, BAR, t.query + [BAR] + t.cookie);
    SplitJoin(t.kind[1..], BAR, t.header + [BAR] + (t.query + [BAR] + t.cookie));
  }

  lemma PlainOwnsKey(a: Token, b: Token)
    requires a.kind != "" && b.kind != "" && Plain(a) && TokenKey(b) == TokenKey(a)
    ensures SameFields(a, b)
  {
    KeyText(a);
    KeyText(b);
    KeyParts(a);
    KeyParts(b);
    FieldParts(a);
    FieldParts(b);
    FourParts(a.kind[1..], a.header, a.query, a.cookie, Split(b.kind[1..], BAR), Split(b.header, BAR),
              Split(b.query, BAR), Split(b.cookie, BAR));
    assert a.kind == [a.kind[0]] + a.kind[1..] && b.kind == [b.kind[0]] + b.kind[1..];
  }

  lemma FieldParts(t: Token)
    requires t.kind != ""
    ensures |Split(t.kind[1..], BAR)| == 1 ==> Split(t.kind[1..], BAR) == [t.kind[1..]]
    ensures |Split(t.header, BAR)| == 1 ==> Split(t.header, BAR) == [t.header]
    ensures |Split(t.query, BAR)| == 1 ==> Split(t.query, BAR) == [t.query]
    ensures |Split(t.cookie, BAR)| == 1 ==> Split(t.cookie, BAR) == [t.cookie]
    ensures Plain(t) ==> |Split(t.kind[1..], BAR)| == |Split(t.header, BAR)| == 1
    ensures Plain(t) ==> |Split(t.query, BAR)| == |Split(t.cookie, BAR)| == 1
  {
    SplitCount(t.kind[1..], BAR);
    SplitCount(t.header, BAR);
    SplitCount(t.query, BAR);
    SplitCount(t.cookie, BAR);
  }

  lemma FirstPart(x: seq<string>, y: seq<string>, first: string, rest: seq<string>)
    requires |x| == 1 && x + y == [first] + rest
    ensures x == [first] && y == rest
  {
    assert x == (x + y)[..1] && y == (x + y)[1..];
    assert ([first] + rest)[1..] == rest;
  }

  lemma FourParts(a: string, b: string, c: string, d: string, w: seq<string>, x: seq<string>, y: seq<string>,
                  z: seq<string>)
    requires w != [] && x != [] && y != [] && z != []
    requires w + (x + (y + z)) == [a] + ([b] + ([c] + [d]))
    ensures w == [a] && x == [b] && y == [c] && z == [d]
  {
    assert |w + (x + (y + z))| == |w| + |x| + |y| + |z| == 4;
    FirstPart(w, x + (y + z), a, [b] + ([c] + [d]));
    FirstPart(x, y + z, b, [c] + [d]);
    FirstPart(y, z, c, [d]);
  }

  lemma Cut(s: string) returns (x: string, y: string)
    requires BAR in s
    ensures s == x + [BAR] + y
  {
    var i :| 0 <= i < |s| && s[i] == BAR;
    x, y := s[..i], s[i + 1..];
  }

  /** A separator inside a field can be read as the end of it. */
  lemma KeyIsShared(a: Token) returns (b: Token)
    requires a.kind != "" && !Plain(a)
    ensures b.kind != "" && TokenKey(b) == TokenKey(a) && !SameFields(a, b)
  {
    if BAR in a.kind[1..] {
      var x, y := Cut(a.kind[1..]);
      b := a.(kind := [a.kind[0]] + x, header := y, query := a.header, cookie := a.query + "|" + a.cookie);
      assert a.kind == b.kind + "|" + y;
    } else if BAR in a.header {
      var x, y := Cut(a.header);
      b := a.(header := x, query := y, cookie := a.query + "|" + a.cookie);
      assert a.header == x + "|" + y;
    } else if BAR in a.query {
      var x, y := Cut(a.query);
      b := a.(header := a.header + "|" + x, query := y);
      assert a.query == x + "|" + y;
    } else {
      var x, y := Cut(a.cookie);
      b := a.(header := a.header + "|" + a.query, query := x, cookie := y);
      assert a.cookie == x + "|" + y;
    }
    assert TokenKey(b) == TokenKey(a);
  }

  /** A token shares its key only with tokens that differ in nothing but the value, exactly when the separator is in
      none of its fields. */
  lemma TokenKeyIff(a: Token)
    requires a.kind != ""
    ensures OwnKey(a) <==> Plain(a)
  {
    if Plain(a) {
      forall b: Token | b.kind != "" && TokenKey(b) == TokenKey(a) ensures SameFields(a, b) {
        PlainOwnsKey(a, b);
      }
    } else {
      var b := KeyIsShared(a);
    }
  }

  /** Such a token survives every merge but for its value: under its key the merge has one token, with its fields. */
  lemma PlainTokenSurvives(base: seq<Token>, overlay: seq<Token>, a: Token)
    requires a in base + overlay && a.kind != "" && Plain(a)
    ensures exists t :: t in Merge(Tokens(), base, overlay) && SameFields(a, t)
    ensures forall t | t in Merge(Tokens(), base, overlay) && TokenKey(t) == TokenKey(a) :: SameFields(a, t)
  {
    var items, key := base + overlay, TokenKey(a);
    assert Tokens().key(a) == key;
    LatestExists(Tokens(), items, a);
    OrderKeys(Tokens(), items);
    LatestHasKey(Tokens(), items, key);
    var last := Latest(Tokens(), items, key).value;
    var i :| 0 <= i < |Order(Tokens(), items)| && Order(Tokens(), items)[i] == key;
    assert Norm(Tokens(), items)[i] == last;
    PlainOwnsKey(a, last);
    forall t | t in Merge(Tokens(), base, overlay) && TokenKey(t) == TokenKey(a) ensures SameFields(a, t) {
      PlainOwnsKey(a, t);
    }
  }

  // The merge loop

  /** What `values` and `order` hold after `seen`. */
  ghost predicate Tracks<T(!new)>(m: Scheme<T>, seen: seq<T>, values: map<string, T>, order: seq<string>) {
    && order == Order(m, seen)
    && forall k | k != "" :: if k in values then Latest(m, seen, k) == Some(values[k]) else Latest(m, seen, k).None?
  }

  /** The `add` closure of the three merge functions. */
  method AddItems<T(!new)>(m: Scheme<T>, items: seq<T>, values: map<string, T>, order: seq<string>,
                           ghost seen: seq<T>)
    returns (values': map<string, T>, order': seq<string>)
    requires Tracks(m, seen, values, order)
    ensures Tracks(m, seen + items, values', order')
  {
    values', order' := values, order;
    assert seen + items[..0] == seen;
    for i := 0 to |items|
      invariant Tracks(m, seen + items[..i], values', order')
    {
      ghost var before, after := seen + items[..i], seen + items[..i + 1];
      assert after[..|after| - 1] == before && after[|after| - 1] == items[i];
      OrderKeys(m, before);
      var key := m.key(items[i]);
      if key == "" {
        continue;
      }
      if key !in values' {
        order' := order' + [key];
      }
      values' := values'[key := items[i]];
    }
    assert items[..|items|] == items;
  }

  method MergeItems<T(!new)>(m: Scheme<T>, base: seq<T>, overlay: seq<T>) returns (out: seq<T>)
    ensures out == Merge(m, base, overlay)
  {
    var values, order := map[], [];
    values, order := AddItems(m, base, values, order, []);
    values, order := AddItems(m, overlay, values, order, [] + base);
    assert [] + base + overlay == base + overlay;
    OrderKeys(m, base + overlay);
    out := [];
    for i := 0 to |order|
      invariant out == Norm(m, base + overlay)[..i]
    {
      assert order[i] in order;
      out := out + [m.canon(values[order[i]])];
    }
  }

  // Whole profiles

  function Overlay(base: string, overlay: string): string {
    if overlay != "" then overlay else base
  }

  function MergeLogin(base: Option<LoginFlow>, overlay: Option<LoginFlow>): Option<LoginFlow> {
    match (base, overlay)
    case (None, _) => overlay
    case (_, None) => base
    case (Some(b), Some(o)) =>
      Some(LoginFlow(Overlay(b.url, o.url), Overlay(b.userSelector, o.userSelector),
                     Overlay(b.passSelector, o.passSelector), Overlay(b.submitSelector, o.submitSelector),
                     Overlay(b.username, o.username), Overlay(b.password, o.password),
                     o.autoDetect, b.confidenceScore))
  }

  function MergeProfile(base: Profile, overlay: Profile): Profile {
    Profile(Overlay(base.name, overlay.name),
            if |overlay.parents| > 0 then overlay.parents else base.parents,
            Merge(Headers(), base.headers, overlay.headers),
            Merge(Cookies(), base.cookies, overlay.cookies),
            Merge(Tokens(), base.tokens, overlay.tokens),
            MergeLogin(base.login, overlay.login))
  }

  method MergeTwo(base: Profile, overlay: Profile) returns (out: Profile)
    ensures out == MergeProfile(base, overlay)
  {
    out := base;
    if overlay.name != "" {
      out := out.(name := overlay.name);
    }
    if |overlay.parents| > 0 {
      out := out.(parents := overlay.parents);
    }
    var headers := MergeItems(Headers(), out.headers, overlay.headers);
    var cookies := MergeItems(Cookies(), out.cookies, overlay.cookies);
    var tokens := MergeItems(Tokens(), out.tokens, overlay.tokens);
    out := out.(headers := headers, cookies := cookies, tokens := tokens,
                login := MergeLogin(out.login, overlay.login));
  }

  lemma MergeLoginAssociative(a: Option<LoginFlow>, b: Option<LoginFlow>, c: Option<LoginFlow>)
    ensures MergeLogin(MergeLogin(a, b), c) == MergeLogin(a, MergeLogin(b, c))
  {
  }

  lemma MergeProfileAssociative(a: Profile, b: Profile, c: Profile)
    ensures MergeProfile(MergeProfile(a, b), c) == MergeProfile(a, MergeProfile(b, c))
  {
    ItemsAssociative(a, b, c);
    MergeLoginAssociative(a.login, b.login, c.login);
    var left, right := MergeProfile(MergeProfile(a, b), c), MergeProfile(a, MergeProfile(b, c));
    assert left.name == right.name && left.parents == right.parents && left.login == right.login;
  }

  lemma ItemsAssociative(a: Profile, b: Profile, c: Profile)
    ensures Merge(Headers(), Merge(Headers(), a.headers, b.headers), c.headers)
         == Merge(Headers(), a.headers, Merge(Headers(), b.headers, c.headers))
    ensures Merge(Cookies(), Merge(Cookies(), a.cookies, b.cookies), c.cookies)
         == Merge(Cookies(), a.cookies, Merge(Cookies(), b.cookies, c.cookies))
    ensures Merge(Tokens(), Merge(Tokens(), a.tokens, b.tokens), c.tokens)
         == Merge(Tokens(), a.tokens, Merge(Tokens(), b.tokens, c.tokens))
  {
    SchemesAreLawful();
    MergeAssociative(Headers(), a.headers, b.headers, c.headers);
    MergeAssociative(Cookies(), a.cookies, b.cookies, c.cookies);
    MergeAssociative(Tokens(), a.tokens, b.tokens, c.tokens);
  }

  /** Merging the profiles of a list one after the other. */
  function MergeAll(ps: seq<Profile>): Profile {
    if ps == [] then NO_PROFILE else MergeProfile(MergeAll(ps[..|ps| - 1]), ps[|ps| - 1])
  }

  lemma {:induction false} MergeAllConcat(x: seq<Profile>, y: seq<Profile>)
    ensures MergeAll(x + y) == MergeProfile(MergeAll(x), MergeAll(y))
  {
    if y == [] {
      assert x + y == x;
      NothingToMerge(x);
    } else {
      var init, last := y[..|y| - 1], y[|y| - 1];
      MergeAllConcat(x, init);
      InitOfConcat(x, y);
      MergeProfileAssociative(MergeAll(x), MergeAll(init), last);
    }
  }

  lemma NothingToMerge(x: seq<Profile>)
    ensures MergeProfile(MergeAll(x), NO_PROFILE) == MergeAll(x)
  {
    SchemesAreLawful();
    var p := MergeAll(x);
    assert p.headers + [] == p.headers && p.cookies + [] == p.cookies && p.tokens + [] == p.tokens;
    if x != [] {
      var b, o := MergeAll(x[..|x| - 1]), x[|x| - 1];
      NormIdempotent(Headers(), b.headers + o.headers);
      NormIdempotent(Cookies(), b.cookies + o.cookies);
      NormIdempotent(Tokens(), b.tokens + o.tokens);
    }
  }

  function AllHeaders(ps: seq<Profile>): seq<HeaderKV> {
    if ps == [] then [] else AllHeaders(ps[..|ps| - 1]) + ps[|ps| - 1].headers
  }

  function AllCookies(ps: seq<Profile>): seq<Cookie> {
    if ps == [] then [] else AllCookies(ps[..|ps| - 1]) + ps[|ps| - 1].cookies
  }

  function AllTokens(ps: seq<Profile>): seq<Token> {
    if ps == [] then [] else AllTokens(ps[..|ps| - 1]) + ps[|ps| - 1].tokens
  }

  /** One flat pass over the concatenated items gives what the merges give one after the other. */
  lemma {:induction false} MergeAllIsFlat(ps: seq<Profile>)
    ensures MergeAll(ps).headers == Norm(Headers(), AllHeaders(ps))
    ensures MergeAll(ps).cookies == Norm(Cookies(), AllCookies(ps))
    ensures MergeAll(ps).tokens == Norm(Tokens(), AllTokens(ps))
  {
    if ps != [] {
      var init, last := ps[..|ps| - 1], ps[|ps| - 1];
      MergeAllIsFlat(init);
      SchemesAreLawful();
      NormAbsorbs(Headers(), AllHeaders(init), last.headers);
      NormAbsorbs(Cookies(), AllCookies(init), last.cookies);
      NormAbsorbs(Tokens(), AllTokens(init), last.tokens);
    }
  }
}
