/**
  The registry of supported protocol versions and the resolution of a requested
  version: the newest registered minor version that is not newer than the request.
 */
module VersionRegistry {
  import opened Wrappers

  type u8 = n: nat | n < 256

  datatype Name =
    | Routing | BasicMessage | Connections | Signature | IssueCredential | DiscoverFeatures | Notification
    | OutOfBand | PresentProof | ReportProblem | RevocationNotification | TrustPing | MessagePickup
    | CoordinateMediation | DidExchange

  datatype Version = Version(name: Name, major: u8, minor: u8)

  /** Minor versions by protocol and major version, in order of insertion. */
  type Registry = map<(Name, u8), seq<u8>>

  datatype Error = UnsupportedMajorVer(major: u8) | UnsupportedMinorVer(minor: u8)

  // ----------------------------------------------------------- building and search

  function Minors(r: Registry, name: Name, major: u8): seq<u8> {
    if (name, major) in r then r[(name, major)] else []
  }

  function Inserted(r: Registry, v: Version): Registry {
    r[(v.name, v.major) := Minors(r, v.name, v.major) + [v.minor]]
  }

  class RegistryMap {
    var entries: Registry

    constructor ()
      ensures entries == map[]
    {
      entries := map[];
    }

    /** `map_insert` */
    method MapInsert(v: Version)
      modifies this
      ensures entries == Inserted(old(entries), v)
    {
      var key := (v.name, v.major);
      if key !in entries { entries := entries[key := []]; }
      entries := entries[key := entries[key] + [v.minor]];
    }
  }

  function Built(versions: seq<Version>): Registry {
    if versions == [] then map[] else Inserted(Built(versions[..|versions| - 1]), versions[|versions| - 1])
  }

  /** The last of `vs` that is at most `minor`: a search from the back. */
  function FindBack(vs: seq<u8>, minor: u8): (r: Option<u8>)
    ensures r.None? <==> forall i :: 0 <= i < |vs| ==> vs[i] > minor
    ensures r.Some? ==> exists i :: 0 <= i < |vs| && IsLastFit(vs, minor, i) && r.value == vs[i]
  {
    if vs == [] then None
    else
      var n := |vs| - 1;
      if vs[n] <= minor then assert IsLastFit(vs, minor, n); Some(vs[n])
      else
        var r := FindBack(vs[..n], minor);
        assert forall i :: 0 <= i < n ==> vs[..n][i] == vs[i];
        assert r.Some? ==> forall i :: 0 <= i < n && IsLastFit(vs[..n], minor, i) ==> IsLastFit(vs, minor, i);
        r
  }

  ghost predicate IsLastFit(vs: seq<u8>, minor: u8, i: nat) {
    i < |vs| && vs[i] <= minor && forall j :: i < j < |vs| ==> vs[j] > minor
  }

  /** `get_supported_version` */
  function Supported(r: Registry, name: Name, major: u8, minor: u8): Option<u8> {
    FindBack(Minors(r, name, major), minor)
  }

  // ----------------------------------------------- what the search promises, and when

  /** `r` is the greatest of `vs` not above `minor`, or nothing if there is none. */
  ghost predicate IsGreatest(vs: seq<u8>, minor: u8, r: Option<u8>) {
    match r
    case None => forall i :: 0 <= i < |vs| ==> vs[i] > minor
    case Some(m) => m in vs && m <= minor && forall i :: 0 <= i < |vs| && vs[i] <= minor ==> vs[i] <= m
  }

  /** A greater value registered before a smaller one is registered again at or after it. */
  predicate Recovers(vs: seq<u8>) {
    forall i, j :: 0 <= i < j < |vs| && vs[i] > vs[j] ==> vs[i] in vs[j..]
  }

  predicate Ascending(vs: seq<u8>) {
    forall i, j :: 0 <= i < j < |vs| ==> vs[i] < vs[j]
  }

  /** The search finds the greatest for every request exactly when the list recovers. */
  lemma SearchIsGreatest(vs: seq<u8>)
    ensures (forall minor: u8 :: IsGreatest(vs, minor, FindBack(vs, minor))) <==> Recovers(vs)
  {
    if Recovers(vs) {
      forall minor: u8 ensures IsGreatest(vs, minor, FindBack(vs, minor)) { RecoversFinds(vs, minor); }
    } else {
      var i, j :| 0 <= i < j < |vs| && vs[i] > vs[j] && vs[i] !in vs[j..];
      MissesGreater(vs, i, j);
    }
  }

  lemma RecoversFinds(vs: seq<u8>, minor: u8)
    requires Recovers(vs)
    ensures IsGreatest(vs, minor, FindBack(vs, minor))
  {
    hide FindBack, Recovers;
    if FindBack(vs, minor).Some? {
      var k :| 0 <= k < |vs| && IsLastFit(vs, minor, k) && FindBack(vs, minor).value == vs[k];
      forall i | 0 <= i < |vs| && vs[i] <= minor ensures vs[i] <= vs[k] {
        if vs[i] > vs[k] {
          var p := LaterCopy(vs, i, k);
        }
      }
    }
  }

  lemma LaterCopy(vs: seq<u8>, i: nat, k: nat) returns (p: nat)
    requires Recovers(vs) && i < |vs| && k < |vs| && vs[i] > vs[k]
    ensures i < k ==> k < p < |vs| && vs[p] == vs[i]
  {
    p := 0;
    if i < k {
      var q :| 0 <= q < |vs[k..]| && vs[k..][q] == vs[i];
      p := k + q;
    }
  }

  lemma MissesGreater(vs: seq<u8>, i: nat, j: nat)
    requires i < j < |vs| && vs[i] > vs[j] && vs[i] !in vs[j..]
    ensures !IsGreatest(vs, vs[i], FindBack(vs, vs[i]))
  {
    hide FindBack;
    var minor := vs[i];
    assert FindBack(vs, minor).Some? by { assert vs[i] <= minor; }
    var k :| 0 <= k < |vs| && IsLastFit(vs, minor, k) && FindBack(vs, minor).value == vs[k];
    assert vs[j] <= minor && k >= j;
    assert vs[k] == vs[j..][k - j];
  }

  lemma AscendingRecovers(vs: seq<u8>)
    requires Ascending(vs)
    ensures Recovers(vs)
  {}

  /** The failing family is real: with 1 inserted before 0, a request for 1 resolves to 0. */
  lemma DescendingResolvesDown()
    ensures FindBack([1, 0], 1) == Some(0) && !Recovers([1, 0])
  {
    assert [1, 0][1..] == [0];
    assert [1, 0][0] > [1, 0][1];
  }

  /** The insertions put, under each protocol and major version, each minor after all smaller ones. */
  ghost predicate InOrder(versions: seq<Version>) {
    forall i, j :: 0 <= i < j < |versions| && versions[i].name == versions[j].name && versions[i].major == versions[j].major
      ==> versions[i].minor < versions[j].minor
  }

  lemma MinorsInserted(r: Registry, v: Version, name: Name, major: u8)
    ensures Minors(Inserted(r, v), name, major)
         == Minors(r, name, major) + if v.name == name && v.major == major then [v.minor] else []
  {}

  lemma {:induction false} BuiltContents(versions: seq<Version>, name: Name, major: u8)
    ensures forall m :: m in Minors(Built(versions), name, major) <==> Version(name, major, m) in versions
  {
    if versions != [] {
      hide Minors, Inserted;
      var n := |versions| - 1;
      BuiltContents(versions[..n], name, major);
      MinorsInserted(Built(versions[..n]), versions[n], name, major);
      assert versions == versions[..n] + [versions[n]];
    }
  }

  lemma AscendingLast(vs: seq<u8>, v: u8)
    requires Ascending(vs)
    ensures (forall i :: 0 <= i < |vs| ==> vs[i] < v) ==> Ascending(vs + [v])
  {}

  lemma {:induction false} BuiltInOrder(versions: seq<Version>, name: Name, major: u8)
    requires InOrder(versions)
    ensures Ascending(Minors(Built(versions), name, major))
  {
    if versions != [] {
      hide Minors, Inserted, Ascending;
      var n := |versions| - 1;
      var front, v := versions[..n], versions[n];
      BuiltInOrder(front, name, major);
      BuiltContents(front, name, major);
      MinorsInserted(Built(front), v, name, major);
      var before := Minors(Built(front), name, major);
      assert before + [] == before;
      AscendingLast(before, v.minor);
      forall i | 0 <= i < |before| && v.name == name && v.major == major ensures before[i] < v.minor {
        assert before[i] in before;
        var k :| 0 <= k < n && front[k] == Version(name, major, before[i]);
        assert versions[k] == front[k];
      }
    }
  }

  // ---------------------------------------------------------------- resolution

  // `d` stands for the enum of a protocol: its major versions and the minor versions of each.

  /** `try_resolve_version` of one major version; the second error names the minor already found. */
  function TryResolve(r: Registry, d: set<u8>, name: Name, major: u8, minor: u8): Result<Version, Error> {
    match Supported(r, name, major, minor)
    case None => Err(UnsupportedMinorVer(minor))
    case Some(m) => if m in d then Ok(Version(name, major, m)) else Err(UnsupportedMinorVer(m))
  }

  /** `try_from_version_parts` */
  function FromParts(r: Registry, d: map<u8, set<u8>>, name: Name, major: u8, minor: u8): Result<Version, Error> {
    if major in d then TryResolve(r, d[major], name, major, minor) else Err(UnsupportedMajorVer(major))
  }

  /** Everything inserted was made by a constructor of its enum. */
  ghost predicate Constructed(versions: seq<Version>, name: Name, d: map<u8, set<u8>>) {
    forall i :: 0 <= i < |versions| && versions[i].name == name ==>
      versions[i].major in d && versions[i].minor in d[versions[i].major]
  }

  /** The version a request should resolve to. */
  ghost predicate Best(versions: seq<Version>, name: Name, major: u8, minor: u8, v: Version) {
    && v in versions && v.name == name && v.major == major && v.minor <= minor
    && forall w :: w in versions && w.name == name && w.major == major && w.minor <= minor ==> w.minor <= v.minor
  }

  /** Resolution gives the best registered version, and fails exactly when there is none. */
  lemma ResolvesToBest(versions: seq<Version>, name: Name, d: map<u8, set<u8>>, major: u8, minor: u8)
    requires InOrder(versions) && Constructed(versions, name, d)
    ensures var r := FromParts(Built(versions), d, name, major, minor);
      && (r.Ok? ==> Best(versions, name, major, minor, r.value))
      && (r.Err? ==> r.error == if major in d then UnsupportedMinorVer(minor) else UnsupportedMajorVer(major))
      && (r.Err? <==> forall w :: w in versions && w.name == name && w.major == major ==> w.minor > minor)
  {
    hide Built, Recovers, Ascending, InOrder, FindBack;
    var vs := Minors(Built(versions), name, major);
    BuiltContents(versions, name, major);
    BuiltInOrder(versions, name, major);
    AscendingRecovers(vs);
    RecoversFinds(vs, minor);
    var found := FindBack(vs, minor);
    forall w | w in versions && w.name == name && w.major == major
      ensures w.major in d && w.minor in d[w.major] && w.minor in vs
    {
      var i :| 0 <= i < |versions| && versions[i] == w;
      assert w == Version(name, major, w.minor);
    }
    if found.Some? { assert Version(name, major, found.value) in versions; }
    if major !in d { assert forall w :: w in versions && w.name == name ==> w.major != major; }
  }

  lemma BestUnique(versions: seq<Version>, name: Name, major: u8, minor: u8, v: Version, w: Version)
    requires Best(versions, name, major, minor, v) && Best(versions, name, major, minor, w)
    ensures v == w
  {}

  /** A higher request resolves too, never lower; and a resolved version resolves to itself. */
  lemma ResolutionIsStable(versions: seq<Version>, name: Name, d: map<u8, set<u8>>, major: u8, minor: u8, higher: u8)
    requires InOrder(versions) && Constructed(versions, name, d) && minor <= higher
    requires FromParts(Built(versions), d, name, major, minor).Ok?
    ensures var v := FromParts(Built(versions), d, name, major, minor).value;
      && FromParts(Built(versions), d, name, major, higher).Ok?
      && v.minor <= FromParts(Built(versions), d, name, major, higher).value.minor
      && FromParts(Built(versions), d, v.name, v.major, v.minor) == Ok(v)
  {
    hide FromParts, Built, InOrder, Constructed;
    var v := FromParts(Built(versions), d, name, major, minor).value;
    ResolvesToBest(versions, name, d, major, minor);
    ResolvesToBest(versions, name, d, major, higher);
    ResolvesToBest(versions, name, d, major, v.minor);
    assert Best(versions, name, major, v.minor, v);
    BestUnique(versions, name, major, v.minor, v, FromParts(Built(versions), d, name, major, v.minor).value);
  }

  // -------------------------------------------------------- the shipped registry

  const SHIPPED: seq<Version> := [
    Version(Routing, 1, 0), Version(BasicMessage, 1, 0), Version(Connections, 1, 0), Version(Signature, 1, 0),
    Version(IssueCredential, 1, 0), Version(IssueCredential, 2, 0), Version(DiscoverFeatures, 1, 0),
    Version(Notification, 1, 0), Version(OutOfBand, 1, 1), Version(PresentProof, 1, 0), Version(PresentProof, 2, 0),
    Version(ReportProblem, 1, 0), Version(RevocationNotification, 2, 0), Version(TrustPing, 1, 0),
    Version(MessagePickup, 2, 0), Version(CoordinateMediation, 1, 0), Version(DidExchange, 1, 0), Version(DidExchange, 1, 1)]

  /** The versions the enum of each protocol declares. */
  function DeclaredVersions(name: Name): map<u8, set<u8>> {
    match name
    case IssueCredential => map[1 := {0}, 2 := {0}]
    case PresentProof => map[1 := {0}, 2 := {0}]
    case OutOfBand => map[1 := {1}]
    case DidExchange => map[1 := {1, 0}]
    case MessagePickup => map[2 := {0}]
    case RevocationNotification => map[2 := {0}]
    case _ => map[1 := {0}]
  }

  /** The position of a version in the order in which the registry lists them. */
  function Place(v: Version): nat {
    var name := match v.name
      case Routing => 0 case BasicMessage => 1 case Connections => 2 case Signature => 3 case IssueCredential => 4
      case DiscoverFeatures => 5 case Notification => 6 case OutOfBand => 7 case PresentProof => 8
      case ReportProblem => 9 case RevocationNotification => 10 case TrustPing => 11 case MessagePickup => 12
      case CoordinateMediation => 13 case DidExchange => 14;
    65536 * name + 256 * v.major + v.minor
  }

  lemma {:induction false} PlacesAscend(versions: seq<Version>, i: nat, j: nat)
    requires forall k :: 0 < k < |versions| ==> Place(versions[k - 1]) < Place(versions[k])
    requires i < j < |versions|
    ensures Place(versions[i]) < Place(versions[j])
  {
    if i < j - 1 { PlacesAscend(versions, i, j - 1); }
  }

  lemma ShippedAscends()
    ensures forall k :: 0 < k < |SHIPPED| ==> Place(SHIPPED[k - 1]) < Place(SHIPPED[k])
  {}

  lemma ShippedIsDeclared(name: Name)
    ensures Constructed(SHIPPED, name, DeclaredVersions(name))
  {}

  /** The registry as shipped meets the conditions, for every protocol. */
  lemma ShippedIsInOrder(name: Name)
    ensures InOrder(SHIPPED) && Constructed(SHIPPED, name, DeclaredVersions(name))
  {
    hide SHIPPED, Constructed;
    ShippedIsDeclared(name);
    ShippedAscends();
    forall i, j | 0 <= i < j < |SHIPPED| && SHIPPED[i].name == SHIPPED[j].name && SHIPPED[i].major == SHIPPED[j].major
      ensures SHIPPED[i].minor < SHIPPED[j].minor
    {
      PlacesAscend(SHIPPED, i, j);
    }
  }

  /** Every declared version is registered, and no other. */
  lemma ShippedIsEverything(name: Name, major: u8, minor: u8)
    ensures Version(name, major, minor) in SHIPPED <==>
            major in DeclaredVersions(name) && minor in DeclaredVersions(name)[major]
  {
    if Version(name, major, minor) in SHIPPED {
      ShippedIsDeclared(name);
      var i :| 0 <= i < |SHIPPED| && SHIPPED[i] == Version(name, major, minor);
    }
    if major in DeclaredVersions(name) && minor in DeclaredVersions(name)[major] {
      assert Version(name, major, minor) in SHIPPED;
    }
  }

  /** So the shipped agent resolves every request to the greatest declared minor not above it. */
  lemma ShippedResolution(name: Name, major: u8, minor: u8)
    ensures var r, d := FromParts(Built(SHIPPED), DeclaredVersions(name), name, major, minor), DeclaredVersions(name);
      && (r.Ok? <==> major in d && exists m :: m in d[major] && m <= minor)
      && (r.Ok? ==>
            && r.value.name == name && r.value.major == major && r.value.minor in d[major] && r.value.minor <= minor
            && forall m :: m in d[major] && m <= minor ==> m <= r.value.minor)
  {
    hide SHIPPED, FromParts, Built, DeclaredVersions, InOrder, Constructed;
    ShippedIsInOrder(name);
    ResolvesToBest(SHIPPED, name, DeclaredVersions(name), major, minor);
    forall m: u8 ensures Version(name, major, m) in SHIPPED <==>
        major in DeclaredVersions(name) && m in DeclaredVersions(name)[major]
    {
      ShippedIsEverything(name, major, m);
    }
    forall w | w in SHIPPED && w.name == name && w.major == major ensures w == Version(name, major, w.minor) {}
  }
}
