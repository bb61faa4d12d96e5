/** Hash routing of the application shell (App.tsx): the location hash is
    normalised into a path, and the path, together with a pending checkout
    package, decides which view is rendered. */
module Routing {
  import opened Wrappers
  import opened Text
  import opened Records
  import Catalog

  /** `handleHashChange`: drop the first character of the hash (the '#'),
      and read an empty result as the root path. */
  function NormalizeHash(hash: string): (p: string)
    ensures p != ""
    ensures |hash| <= 1 ==> p == "/"
    ensures |hash| > 1 ==> p == hash[1..]
  {
    var h := if |hash| == 0 then "" else hash[1..];
    if h == "" then "/" else h
  }

  // ---------------------------------------------------------------------
  // The location hash setter
  // ---------------------------------------------------------------------

  /** A character the URL parser keeps as it is in a fragment: printable
      ASCII other than space and the fragment percent-encode set's
      '"', '<', '>' and '`'. */
  predicate PlainFragmentChar(c: char) {
    ' ' < c < '\U{7F}' && c != '"' && c != '<' && c != '>' && c != '`'
  }

  predicate PlainPath(path: string) {
    forall i :: 0 <= i < |path| ==> PlainFragmentChar(path[i])
  }

  function HexDigit(n: nat): (c: char)
    requires n < 16
  {
    "0123456789ABCDEF"[n]
  }

  /** One byte as `%XY`, upper-case hexadecimal. */
  function PercentByte(b: nat): (s: string)
    requires b < 256
    ensures |s| == 3 && s[0] == '%'
  {
    ['%', HexDigit(b / 16), HexDigit(b % 16)]
  }

  /** The UTF-8 bytes of one code point. */
  function Utf8(c: char): (bs: seq<nat>)
    ensures 1 <= |bs| <= 4
    ensures forall i :: 0 <= i < |bs| ==> bs[i] < 256
  {
    var n := c as int;
    if n < 0x80 then [n]
    else if n < 0x800 then [0xC0 + n / 64, 0x80 + n % 64]
    else if n < 0x10000 then [0xE0 + n / 4096, 0x80 + (n / 64) % 64, 0x80 + n % 64]
    else [0xF0 + n / 262144, 0x80 + (n / 4096) % 64, 0x80 + (n / 64) % 64, 0x80 + n % 64]
  }

  function PercentBytes(bs: seq<nat>): (s: string)
    requires forall i :: 0 <= i < |bs| ==> bs[i] < 256
    ensures |s| == 3 * |bs|
  {
    if |bs| == 0 then [] else PercentByte(bs[0]) + PercentBytes(bs[1..])
  }

  /** The fragment state of the URL parser: plain characters are kept,
      every other one is written as the percent-encoded bytes of its
      UTF-8 form. */
  function EncodeFragment(s: string): (r: string)
    ensures PlainPath(s) ==> r == s
    ensures |r| >= |s|
  {
    if |s| == 0 then []
    else
      var head := if PlainFragmentChar(s[0]) then [s[0]] else PercentBytes(Utf8(s[0]));
      head + EncodeFragment(s[1..])
  }

  /** The URL parser drops every tab and newline of its input. */
  function DropTabsAndNewlines(s: string): (r: string)
    ensures |r| <= |s|
    ensures (forall i :: 0 <= i < |s| ==> s[i] != '\t' && s[i] != '\n' && s[i] != '\r') ==> r == s
  {
    if |s| == 0 then []
    else (if s[0] in "\t\n\r" then [] else [s[0]]) + DropTabsAndNewlines(s[1..])
  }

  /** `window.location.hash = value`, then reading `window.location.hash`:
      one leading '#' is removed, the rest parsed as a fragment, and the
      hash reads back as '#' and the fragment, or as the empty string for
      an empty fragment. */
  function HashAfterSet(value: string): (h: string)
    ensures h == "" || h[0] == '#'
  {
    var input := if |value| > 0 && value[0] == '#' then value[1..] else value;
    var fragment := EncodeFragment(DropTabsAndNewlines(input));
    if fragment == "" then "" else "#" + fragment
  }

  /** `navigate(path)` assigns the hash; the hash-change handler reads the
      same path back, for every non-empty path of plain characters not
      starting with '#'. */
  lemma NavigateRoundTrip(path: string)
    requires path != "" && path[0] != '#' && PlainPath(path)
    ensures NormalizeHash(HashAfterSet(path)) == path
  {
    assert ("#" + path)[1..] == path;
  }

  /** A path that starts with '#' loses it on the way through the hash. */
  lemma NavigateDropsLeadingHash()
    ensures NormalizeHash(HashAfterSet("#x")) == "x"
  {
    assert "#x"[1..] == "x";
    assert PlainPath("x");
    assert ("#" + "x")[1..] == "x";
  }

  /** A space comes back percent-encoded. */
  lemma NavigateEncodesSpace()
    ensures NormalizeHash(HashAfterSet("a b")) == "a%20b"
  {
    KeepsAB();
    EncodesAB();
    assert ("#" + "a%20b")[1..] == "a%20b";
  }

  lemma KeepsAB()
    ensures DropTabsAndNewlines("a b") == "a b"
  {
    assert "a b"[1..] == " b" && " b"[1..] == "b" && "b"[1..] == "";
  }

  lemma EncodesAB()
    ensures EncodeFragment("a b") == "a%20b"
  {
    assert "a b"[1..] == " b" && " b"[1..] == "b";
    SpaceBytes();
    assert PlainPath("b") && !PlainFragmentChar(' ') && PlainFragmentChar('a');
    assert EncodeFragment(" b") == "%20" + EncodeFragment("b");
    assert EncodeFragment("a b") == "a" + EncodeFragment(" b");
    assert "a" + ("%20" + "b") == "a%20b";
  }

  lemma SpaceBytes()
    ensures PercentBytes(Utf8(' ')) == "%20"
  {
    assert Utf8(' ') == [32];
    assert PercentBytes([32]) == PercentByte(32) + PercentBytes([]);
  }


  datatype Page =
    | DashboardPage
    | AdminPage
    | BillingPage
    | AgentPage(agentId: string, callMode: bool)

  datatype View =
    | CheckoutView(pkg: CreditPackage)
    | HomeView
    | AuthView
    /** A page wrapped in the route guard, with its role list if any. */
    | Guarded(allowedRoles: Option<seq<Role>>, page: Page)
    | NotFound

  const AdminRoles: seq<Role> := [SUPER_ADMIN, ADMIN]

  const AgentPrefix: string := "/agent/"
  const CallSuffix: string := "/call"

  /** The agent id of an agent path: the first "/agent/" removed, then the
      first "/call" removed. */
  function AgentIdOf(path: string): string {
    ReplaceFirst(ReplaceFirst(path, AgentPrefix, ""), CallSuffix, "")
  }

  /** A pending checkout id counts only when it is a non-empty string. */
  predicate Pending(checkoutId: Option<string>) {
    checkoutId.Some? && checkoutId.value != ""
  }

  /** `renderContent`. */
  function Resolve(path: string, checkoutId: Option<string>): View {
    if Pending(checkoutId) && Catalog.FindPackage(checkoutId.value).Some? then
      CheckoutView(Catalog.FindPackage(checkoutId.value).value)
    else if path == "/" || path == "" then HomeView
    else if path == "/auth" then AuthView
    else if path == "/dashboard" then Guarded(None, DashboardPage)
    else if path == "/admin" then Guarded(Some(AdminRoles), AdminPage)
    else if path == "/billing" then Guarded(None, BillingPage)
    else if StartsWith(path, AgentPrefix) && Catalog.IsAgentId(AgentIdOf(path)) then
      Guarded(None, AgentPage(AgentIdOf(path), EndsWith(path, CallSuffix)))
    else NotFound
  }

  /** A pending checkout for a package that exists overrides every path. */
  lemma CheckoutOverrides(path: string, id: string)
    requires id != "" && Catalog.FindPackage(id).Some?
    ensures Resolve(path, Some(id)) == CheckoutView(Catalog.FindPackage(id).value)
    ensures Resolve(path, Some(id)).pkg.id == id
  {
  }

  /** An unknown (or empty) package id falls through to the path. */
  lemma UnknownPackageFallsThrough(path: string, id: string)
    requires id == "" || Catalog.FindPackage(id).None?
    ensures Resolve(path, Some(id)) == Resolve(path, None)
  {
  }

  /** The fixed routes. */
  lemma FixedRoutes()
    ensures Resolve("/", None) == HomeView && Resolve("", None) == HomeView
    ensures Resolve("/auth", None) == AuthView
    ensures Resolve("/dashboard", None) == Guarded(None, DashboardPage)
    ensures Resolve("/billing", None) == Guarded(None, BillingPage)
    ensures Resolve("/admin", None) == Guarded(Some([SUPER_ADMIN, ADMIN]), AdminPage)
  {
  }

  /** An agent page is reached exactly through a path with the agent
      prefix whose extracted id names a known agent; call mode is chosen by
      the "/call" suffix. */
  lemma AgentRouteIff(path: string, id: string, callMode: bool)
    ensures Resolve(path, None) == Guarded(None, AgentPage(id, callMode)) <==>
      && StartsWith(path, AgentPrefix)
      && Catalog.IsAgentId(id)
      && id == AgentIdOf(path)
      && callMode == EndsWith(path, CallSuffix)
  {
    if StartsWith(path, AgentPrefix) {
      NotAFixedRoute(path);
    }
  }

  /** A path under the agent prefix is none of the fixed routes. */
  lemma NotAFixedRoute(path: string)
    requires StartsWith(path, AgentPrefix)
    ensures path !in ["/", "", "/auth", "/dashboard", "/admin", "/billing"]
  {
    assert path[..7] == AgentPrefix;
    assert |path| >= 7 && path[1] == 'a' && path[2] == 'g';
    assert "/billing"[1] == 'b';
    assert "/dashboard"[1] == 'd';
  }

  /** A path under the agent prefix whose id is not a known agent, and any
      path matching no route, renders the 404 view. */
  lemma UnknownAgentNotFound(path: string)
    requires StartsWith(path, AgentPrefix) && !Catalog.IsAgentId(AgentIdOf(path))
    ensures Resolve(path, None) == NotFound
  {
    NotAFixedRoute(path);
  }

  lemma UnmatchedNotFound(path: string)
    requires path !in ["/", "", "/auth", "/dashboard", "/admin", "/billing"]
    requires !StartsWith(path, AgentPrefix)
    ensures Resolve(path, None) == NotFound
  {
  }

  /** A string without '/' contains no "/call". */
  lemma NoSlashNoCall(s: string)
    requires '/' !in s
    ensures !Includes(s, CallSuffix)
  {
    forall i | 0 <= i
      ensures !OccursAt(s, CallSuffix, i)
    {
      if i + |CallSuffix| <= |s| {
        assert s[i] in s;
        assert s[i..i + |CallSuffix|][0] == s[i] != '/';
      }
    }
    IncludesIff(s, CallSuffix);
  }

  /** The call link the layout builds, "/agent/" + id + "/call", routes
      back to that agent in call mode, and the chat link "/agent/" + id to
      it in chat mode, for every id without "/call" in it. */
  lemma AgentLinkRoundTrip(id: string)
    requires !Includes(id, CallSuffix)
    ensures AgentIdOf(AgentPrefix + id + CallSuffix) == id
    ensures EndsWith(AgentPrefix + id + CallSuffix, CallSuffix)
    ensures AgentIdOf(AgentPrefix + id) == id
    ensures StartsWith(AgentPrefix + id, AgentPrefix) && StartsWith(AgentPrefix + id + CallSuffix, AgentPrefix)
  {
    assert AgentPrefix + id + CallSuffix == AgentPrefix + (id + CallSuffix);
    ReplacePrefix(AgentPrefix, id + CallSuffix);
    ReplaceTrailing(id, CallSuffix);
    ReplacePrefix(AgentPrefix, id);
    var p := AgentPrefix + id + CallSuffix;
    assert p[|p| - |CallSuffix|..] == CallSuffix;
    assert p[..|AgentPrefix|] == AgentPrefix;
    assert (AgentPrefix + id)[..|AgentPrefix|] == AgentPrefix;
  }

  /** Every agent of the catalogue is reachable by its call link. */
  lemma CatalogCallLinks(id: string)
    requires Catalog.IsAgentId(id)
    ensures Resolve(AgentPrefix + id + CallSuffix, None) == Guarded(None, AgentPage(id, true))
  {
    assert '/' !in id;
    NoSlashNoCall(id);
    AgentLinkRoundTrip(id);
    AgentRouteIff(AgentPrefix + id + CallSuffix, id, true);
  }
}
