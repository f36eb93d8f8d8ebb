/** The canonical text of the servers a client talks to: lower-cased, each once, in order, joined by commas. */
module MongoAuthority {
  import opened Wrappers
  import opened Seqs
  import opened Binding

  const COMMA: CodeUnit := 0x2C

  /** Lower-casing and white space of the runtime. */
  datatype Unicode = Unicode(lower: Text -> Text, space: CodeUnit -> bool)

  datatype RawText = Missing | Null | NotText | Text(text: Text)

  datatype Options = Options(
    srvHost: RawText,
    hosts: seq<Text>,
    replicaSet: RawText,
    srvServiceName: RawText,
    tls: bool,
    directConnection: bool,
    loadBalanced: bool)

  datatype AuthorityError = InvalidAuthority | NoAuthority | InvalidReplicaOption

  datatype Authority = Authority(
    srv: bool,
    authority: Text,
    srvServiceName: Text,
    replicaSetOption: Text,
    tls: bool,
    directConnection: bool,
    loadBalanced: bool)

  predicate Separator(unicode: Unicode, u: CodeUnit) { unicode.space(u) || u in [0x2C, 0x40, 0x2F, 0x3F, 0x23] }

  predicate ValidPart(unicode: Unicode, t: Text) { t != [] && forall i :: 0 <= i < |t| ==> !Separator(unicode, t[i]) }

  /** A text without white space and without a character that ends a host name in a connection string. */
  predicate PlainPart(unicode: Unicode, t: Text) {
    && t != []
    && forall i :: 0 <= i < |t| ==>
         && !unicode.space(t[i])
         && t[i] !in {',' as int, '@' as int, '/' as int, '?' as int, '#' as int}
  }

  lemma ValidPartIff(unicode: Unicode, t: Text)
    ensures ValidPart(unicode, t) <==> PlainPart(unicode, t)
  {
    assert forall i :: 0 <= i < |t| ==>
        (Separator(unicode, t[i]) <==>
          unicode.space(t[i]) || t[i] in {',' as int, '@' as int, '/' as int, '?' as int, '#' as int});
  }

  function Part(unicode: Unicode, value: RawText): Result<Text, AuthorityError> {
    var normalized := if value.Text? then unicode.lower(value.text) else [];
    if ValidPart(unicode, normalized) then Ok(normalized) else Err(InvalidAuthority)
  }

  function Parts(unicode: Unicode, hosts: seq<Text>): Result<seq<Text>, AuthorityError> {
    if hosts == [] then Ok([])
    else
      match Part(unicode, Text(hosts[0]))
      case Err(e) => Err(e)
      case Ok(p) => match Parts(unicode, hosts[1..]) case Err(e) => Err(e) case Ok(rest) => Ok([p] + rest)
  }

  // ---- Order ----

  predicate Less(a: Text, b: Text) {
    b != [] && (a == [] || a[0] < b[0] || (a[0] == b[0] && Less(a[1..], b[1..])))
  }

  lemma {:induction false} LessIsTotal(a: Text, b: Text)
    ensures a == b || Less(a, b) || Less(b, a)
    ensures !(Less(a, b) && Less(b, a)) && !Less(a, a)
    decreases |a| + |b|
  {
    if a != [] && b != [] && a[0] == b[0] {
      LessIsTotal(a[1..], b[1..]);
      assert a == [a[0]] + a[1..] && b == [b[0]] + b[1..];
    }
    if a != [] { LessIsTotalSelf(a); }
  }

  lemma {:induction false} LessIsTotalSelf(a: Text)
    ensures !Less(a, a)
  {
    if a != [] { LessIsTotalSelf(a[1..]); }
  }

  lemma {:induction false} LessIsTransitive(a: Text, b: Text, c: Text)
    requires Less(a, b) && Less(b, c)
    ensures Less(a, c)
    decreases |a|
  {
    if a != [] && a[0] == b[0] && b[0] == c[0] { LessIsTransitive(a[1..], b[1..], c[1..]); }
  }

  function Insert(t: Text, sorted: seq<Text>): seq<Text> {
    if sorted == [] || !Less(sorted[0], t) then [t] + sorted else [sorted[0]] + Insert(t, sorted[1..])
  }

  /** `sort()` by code units. */
  function SortTexts(ts: seq<Text>): seq<Text> {
    if ts == [] then [] else Insert(ts[0], SortTexts(ts[1..]))
  }

  ghost predicate Ascending(ts: seq<Text>) { forall i, j :: 0 <= i < j < |ts| ==> Less(ts[i], ts[j]) }

  lemma {:induction false} InsertAscends(t: Text, sorted: seq<Text>)
    requires Ascending(sorted) && t !in sorted
    ensures Ascending(Insert(t, sorted))
    ensures forall x :: x in Insert(t, sorted) <==> x == t || x in sorted
  {
    if sorted != [] {
      var rest := sorted[1..];
      assert sorted == [sorted[0]] + rest;
      LessIsTotal(sorted[0], t);
      if Less(sorted[0], t) {
        InsertAscends(t, rest);
        var inserted := Insert(t, rest);
        forall j | 0 <= j < |inserted| ensures Less(sorted[0], inserted[j]) { assert inserted[j] in inserted; }
      } else {
        forall j | 0 <= j < |sorted| ensures Less(t, sorted[j]) {
          if j > 0 { LessIsTransitive(t, sorted[0], sorted[j]); }
        }
      }
    }
  }

  lemma {:induction false} SortAscends(ts: seq<Text>)
    requires NoRepeats(ts)
    ensures Ascending(SortTexts(ts)) && forall x :: x in SortTexts(ts) <==> x in ts
  {
    if ts != [] {
      SortAscends(ts[1..]);
      assert ts == [ts[0]] + ts[1..];
      InsertAscends(ts[0], SortTexts(ts[1..]));
    }
  }

  lemma {:induction false} AscendingIsUnique(a: seq<Text>, b: seq<Text>)
    requires Ascending(a) && Ascending(b) && forall x :: x in a <==> x in b
    ensures a == b
  {
    if a == [] {
      assert FirstOr(b, []) !in a;
    } else {
      assert a[0] in b && b != [] && b[0] in a;
      var i :| 0 <= i < |b| && b[i] == a[0];
      var j :| 0 <= j < |a| && a[j] == b[0];
      LessIsTotal(a[0], b[0]);
      assert a[0] == b[0];
      forall x ensures x in a[1..] <==> x in b[1..] {
        LessIsTotal(a[0], a[0]);
        if x in a[1..] { assert x in b; }
        if x in b[1..] { assert x in a; }
      }
      AscendingIsUnique(a[1..], b[1..]);
    }
  }

  // ---- Joining ----

  function Join(ts: seq<Text>): Text {
    if ts == [] then [] else if |ts| == 1 then ts[0] else ts[0] + [COMMA] + Join(ts[1..])
  }

  /** Cutting a text at its first comma. */
  lemma FirstComma(a: Text, x: Text, b: Text, y: Text)
    requires COMMA !in a && COMMA !in b
    requires a + [COMMA] + x == b + [COMMA] + y
    ensures a == b && x == y
  {
    var s, t := a + [COMMA] + x, b + [COMMA] + y;
    assert s[|a|] == COMMA && t[|b|] == COMMA;
    assert forall k :: 0 <= k < |a| ==> s[k] == a[k] != COMMA;
    assert forall k :: 0 <= k < |b| ==> t[k] == b[k] != COMMA;
    assert |a| == |b|;
    assert a == s[..|a|] && b == t[..|b|] && x == s[|a| + 1..] && y == t[|b| + 1..];
  }

  lemma JoinHasComma(ts: seq<Text>)
    ensures |ts| > 1 ==> COMMA in Join(ts)
  {
    if |ts| > 1 { assert Join(ts)[|ts[0]|] == COMMA; }
  }

  lemma {:induction false} JoinInjective(a: seq<Text>, b: seq<Text>)
    requires a != [] && b != [] && Join(a) == Join(b)
    requires forall t :: t in a || t in b ==> COMMA !in t
    ensures a == b
    decreases |a|
  {
    assert a[0] in a && b[0] in b;
    JoinHasComma(a);
    JoinHasComma(b);
    if |a| > 1 && |b| > 1 {
      FirstComma(a[0], Join(a[1..]), b[0], Join(b[1..]));
      JoinInjective(a[1..], b[1..]);
      assert a == [a[0]] + a[1..] && b == [b[0]] + b[1..];
    }
  }

  // ---- The authority ----

  function HostAuthority(unicode: Unicode, hosts: seq<Text>): Result<Text, AuthorityError> {
    match Parts(unicode, hosts)
    case Err(e) => Err(e)
    case Ok(parts) =>
      var sorted := SortTexts(Distinct(parts));
      if sorted == [] then Err(NoAuthority) else Ok(Join(sorted))
  }

  predicate UsesSrv(options: Options) { options.srvHost.Text? && options.srvHost.text != [] }

  /** A missing service name has a default. */
  function Service(options: Options): RawText {
    if options.srvServiceName in [Missing, Null] then Text(DEFAULT_SERVICE) else options.srvServiceName
  }

  predicate ReplicaOptionValid(options: Options) {
    options.replicaSet == Missing || (options.replicaSet.Text? && options.replicaSet.text != [])
  }

  function CanonicalAuthority(unicode: Unicode, options: Options): Result<Authority, AuthorityError> {
    match if UsesSrv(options) then Part(unicode, options.srvHost) else HostAuthority(unicode, options.hosts)
    case Err(e) => Err(e)
    case Ok(authority) =>
      if !ReplicaOptionValid(options) then Err(InvalidReplicaOption)
      else
        match Part(unicode, Service(options))
        case Err(e) => Err(e)
        case Ok(service) =>
          Ok(Authority(UsesSrv(options), authority, service,
                       if options.replicaSet.Text? then options.replicaSet.text else [],
                       options.tls, options.directConnection, options.loadBalanced))
  }

  /** "mongodb". */
  const DEFAULT_SERVICE: Text := [0x6D, 0x6F, 0x6E, 0x67, 0x6F, 0x64, 0x62]

  /** The lower-cased hosts, as a set. */
  ghost function HostSet(unicode: Unicode, hosts: seq<Text>): set<Text> { set h | h in hosts :: unicode.lower(h) }

  lemma {:induction false} PartsAreHosts(unicode: Unicode, hosts: seq<Text>)
    requires Parts(unicode, hosts).Ok?
    ensures forall x :: x in Parts(unicode, hosts).value <==> x in HostSet(unicode, hosts)
    ensures forall x :: x in Parts(unicode, hosts).value ==> ValidPart(unicode, x)
  {
    if hosts != [] {
      PartsAreHosts(unicode, hosts[1..]);
      assert hosts == [hosts[0]] + hosts[1..];
      assert HostSet(unicode, hosts) == {unicode.lower(hosts[0])} + HostSet(unicode, hosts[1..]);
    }
  }

  lemma SortedHosts(unicode: Unicode, hosts: seq<Text>) returns (sorted: seq<Text>)
    requires HostAuthority(unicode, hosts).Ok?
    ensures sorted != [] && Ascending(sorted) && HostAuthority(unicode, hosts).value == Join(sorted)
    ensures forall x :: x in sorted <==> x in HostSet(unicode, hosts)
    ensures forall x :: x in sorted ==> COMMA !in x
  {
    var parts := Parts(unicode, hosts).value;
    sorted := SortTexts(Distinct(parts));
    SortAscends(Distinct(parts));
    PartsAreHosts(unicode, hosts);
    forall x | x in sorted ensures COMMA !in x {
      assert ValidPart(unicode, x);
      forall i | 0 <= i < |x| ensures x[i] != COMMA { assert !Separator(unicode, x[i]); }
    }
  }

  /** Two host lists have the same authority exactly when they name the same hosts, whatever the order, the
      repetitions and the case. */
  lemma AuthorityIffSameHosts(unicode: Unicode, a: seq<Text>, b: seq<Text>)
    requires HostAuthority(unicode, a).Ok? && HostAuthority(unicode, b).Ok?
    ensures HostAuthority(unicode, a) == HostAuthority(unicode, b) <==> HostSet(unicode, a) == HostSet(unicode, b)
  {
    var s := SortedHosts(unicode, a);
    var t := SortedHosts(unicode, b);
    if HostAuthority(unicode, a) == HostAuthority(unicode, b) {
      JoinInjective(s, t);
      assert forall x :: x in HostSet(unicode, a) <==> x in s;
    }
    if HostSet(unicode, a) == HostSet(unicode, b) { AscendingIsUnique(s, t); }
  }

  /** An authority is refused exactly when no host is named or some host is empty or holds a separator. */
  lemma HostAuthorityFailsIff(unicode: Unicode, hosts: seq<Text>)
    ensures HostAuthority(unicode, hosts).Err? <==>
              hosts == [] || exists h :: h in hosts && !PlainPart(unicode, unicode.lower(h))
  {
    PartsFailIff(unicode, hosts);
    forall h | h in hosts ensures ValidPart(unicode, unicode.lower(h)) <==> PlainPart(unicode, unicode.lower(h)) {
      ValidPartIff(unicode, unicode.lower(h));
    }
    if Parts(unicode, hosts).Ok? {
      var parts := Parts(unicode, hosts).value;
      PartsAreHosts(unicode, hosts);
      SortAscends(Distinct(parts));
      if hosts != [] {
        assert unicode.lower(hosts[0]) in HostSet(unicode, hosts);
        assert unicode.lower(hosts[0]) in SortTexts(Distinct(parts));
      }
    }
  }

  lemma {:induction false} PartsFailIff(unicode: Unicode, hosts: seq<Text>)
    ensures Parts(unicode, hosts).Err? <==> exists h :: h in hosts && !ValidPart(unicode, unicode.lower(h))
  {
    if hosts != [] {
      PartsFailIff(unicode, hosts[1..]);
      assert hosts == [hosts[0]] + hosts[1..];
    }
  }

  // ---- The authority in the identity ----

  /** A client is refused exactly for its SRV name or its hosts, for a replica option that is null, no text or empty,
      or for its service name. */
  lemma CanonicalAuthorityFailsIff(unicode: Unicode, options: Options)
    ensures CanonicalAuthority(unicode, options).Err? <==>
              var srv := options.srvHost.Text? && options.srvHost.text != [];
              || (srv && !PlainPart(unicode, unicode.lower(options.srvHost.text)))
              || (!srv &&
                  (options.hosts == [] || exists h :: h in options.hosts && !PlainPart(unicode, unicode.lower(h))))
              || options.replicaSet in [Null, NotText, Text([])]
              || options.srvServiceName == NotText
              || !PlainPart(unicode, unicode.lower(if options.srvServiceName.Text? then options.srvServiceName.text
                                                   else DEFAULT_SERVICE))
  {
    HostAuthorityFailsIff(unicode, options.hosts);
    if UsesSrv(options) { ValidPartIff(unicode, unicode.lower(options.srvHost.text)); }
    if Service(options).Text? { ValidPartIff(unicode, unicode.lower(Service(options).text)); }
  }

  /** Two clients that talk to the same servers in the same way: by the same SRV name or the same set of hosts. */
  ghost predicate SameServers(unicode: Unicode, a: Options, b: Options)
    requires CanonicalAuthority(unicode, a).Ok? && CanonicalAuthority(unicode, b).Ok?
  {
    && UsesSrv(a) == UsesSrv(b)
    && (if UsesSrv(a) then unicode.lower(a.srvHost.text) == unicode.lower(b.srvHost.text)
        else HostSet(unicode, a.hosts) == HostSet(unicode, b.hosts))
    && unicode.lower(Service(a).text) == unicode.lower(Service(b).text)
    && a.replicaSet == b.replicaSet
    && a.tls == b.tls && a.directConnection == b.directConnection && a.loadBalanced == b.loadBalanced
  }

  lemma SameAuthorityIff(unicode: Unicode, a: Options, b: Options)
    requires CanonicalAuthority(unicode, a).Ok? && CanonicalAuthority(unicode, b).Ok?
    ensures CanonicalAuthority(unicode, a) == CanonicalAuthority(unicode, b) <==> SameServers(unicode, a, b)
  {
    if !UsesSrv(a) && !UsesSrv(b) { AuthorityIffSameHosts(unicode, a.hosts, b.hosts); }
  }

  /** The code units of an ASCII text. */
  predicate Spells(t: Text, s: string) { |t| == |s| && forall i :: 0 <= i < |s| ==> t[i] == s[i] as int }

  lemma ConstantsSpell()
    ensures Spells(DEFAULT_SERVICE, "mongodb") && Spells(SRV_SCHEME, "mongodb+srv")
    ensures Spells(TRUE, "true") && Spells(FALSE, "false")
  {}

  /** The inputs of the binding besides the authority. */
  datatype Deployment = Deployment(
    environment: Text, surface: Text, databaseName: Text, replicaSetName: Text, replicaSetId: Text,
    bulkOperationCollectionUuid: Text)

  /** "mongodb+srv". */
  const SRV_SCHEME: Text := DEFAULT_SERVICE + [0x2B, 0x73, 0x72, 0x76]

  const TRUE: Text := [0x74, 0x72, 0x75, 0x65]

  const FALSE: Text := [0x66, 0x61, 0x6C, 0x73, 0x65]

  function FlagText(flag: bool): Text { if flag then TRUE else FALSE }

  function IdentityOf(d: Deployment, a: Authority): Identity {
    Identity(d.environment, d.surface, d.databaseName, d.replicaSetName, d.replicaSetId, d.bulkOperationCollectionUuid,
             if a.srv then SRV_SCHEME else DEFAULT_SERVICE, a.authority, a.srvServiceName, a.replicaSetOption,
             FlagText(a.tls), FlagText(a.directConnection), FlagText(a.loadBalanced))
  }

  lemma FlagsDiffer(a: bool, b: bool)
    ensures FlagText(a) == FlagText(b) <==> a == b
  {
    assert |FlagText(true)| != |FlagText(false)|;
  }

  lemma IdentityDetermines(d: Deployment, a: Authority, e: Deployment, b: Authority)
    ensures IdentityOf(d, a) == IdentityOf(e, b) <==> d == e && a == b
  {
    assert |SRV_SCHEME| != |DEFAULT_SERVICE|;
    FlagsDiffer(a.tls, b.tls);
    FlagsDiffer(a.directConnection, b.directConnection);
    FlagsDiffer(a.loadBalanced, b.loadBalanced);
  }

  /** The binding feeds the same bytes exactly for the same deployment and the same servers, however the
      client's options spell them. */
  lemma StreamIffSameServers(names: seq<Text>, domain: Text, unicode: Unicode, d: Deployment, a: Options, e: Deployment,
                             b: Options)
    requires |names| == 14 && CanonicalAuthority(unicode, a).Ok? && CanonicalAuthority(unicode, b).Ok?
    requires AllWellFormed(Inputs(IdentityOf(d, CanonicalAuthority(unicode, a).value)))
    requires AllWellFormed(Inputs(IdentityOf(e, CanonicalAuthority(unicode, b).value)))
    requires AllFit(FramesOf(names, domain, IdentityOf(d, CanonicalAuthority(unicode, a).value)))
    requires AllFit(FramesOf(names, domain, IdentityOf(e, CanonicalAuthority(unicode, b).value)))
    ensures
      var u := FramesOf(names, domain, IdentityOf(d, CanonicalAuthority(unicode, a).value));
      var v := FramesOf(names, domain, IdentityOf(e, CanonicalAuthority(unicode, b).value));
      Stream(u) == Stream(v) <==> d == e && SameServers(unicode, a, b)
  {
    var x, y := CanonicalAuthority(unicode, a).value, CanonicalAuthority(unicode, b).value;
    SameAuthorityIff(unicode, a, b);
    IdentityDetermines(d, x, e, y);
    if Stream(FramesOf(names, domain, IdentityOf(d, x))) == Stream(FramesOf(names, domain, IdentityOf(e, y))) {
      StreamDeterminesIdentity(names, domain, IdentityOf(d, x), IdentityOf(e, y));
    }
  }
}
