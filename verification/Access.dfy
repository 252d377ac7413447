/**
 secrets/access: certificates delegate access in three tiers. The master key signs administrator
 certificates, administrators sign user certificates, and both end up as rows of one table.
 Fingerprints stand for the keys.
 */
module Access {
  import opened Bytes
  import opened Glob

  type Key = string

  datatype Capability = ManageReaders | ManageWriters | Read | Write | Other(name: string) {
    predicate Admin() { ManageReaders? || ManageWriters? }
    predicate User() { Read? || Write? }
    predicate Valid() { Admin() || User() }
  }

  /** What the signer of a certificate needs in order to hand a capability on. */
  function Required(c: Capability): Capability {
    match c
    case Read => ManageReaders
    case Write => ManageWriters
    case _ => Other("")
  }

  const INFINITY := 0xFFFF_FFFF_FFFF_FFFF

  /** genuine is the verdict of the ssh library on the signature. */
  datatype Certificate = Certificate(
    key: Key, signer: Key, keyId: string, paths: seq<string>, capabilities: seq<Capability>,
    validAfter: nat, validBefore: nat, genuine: bool)

  // ----- Certificates -----

  /** Times of 64 bits are compared as signed integers, except for the one that means forever. */
  predicate InForce(cert: Certificate, now: nat) {
    && cert.validAfter <= now && cert.validAfter < 0x8000_0000_0000_0000
    && (cert.validBefore == INFINITY || now < cert.validBefore < 0x8000_0000_0000_0000)
  }

  /** A certificate on its own: complete, absolute paths, capabilities of one tier. */
  predicate WellFormed(cert: Certificate, now: nat) {
    && cert.key != cert.signer && cert.keyId != ""
    && cert.paths != [] && (forall p :: p in cert.paths ==> p != "" && p[0] == '/')
    && cert.capabilities != []
    && ((forall c :: c in cert.capabilities ==> c.Admin()) || (forall c :: c in cert.capabilities ==> c.User()))
    && cert.genuine && InForce(cert, now)
  }

  /** Validation looks at the first character of every path until it meets a relative one. */
  predicate PanicsOnValidate(cert: Certificate) {
    && cert.key != cert.signer && cert.keyId != ""
    && exists i :: 0 <= i < |cert.paths| && cert.paths[i] == "" && AbsoluteUpTo(cert, i)
  }

  predicate AbsoluteUpTo(cert: Certificate, i: nat)
    requires i <= |cert.paths|
  {
    forall k :: 0 <= k < i ==> cert.paths[k] != "" && cert.paths[k][0] == '/'
  }

  /** Certificate.Validate. The first capability met decides the tier, whichever it is. */
  method ValidateCertificate(cert: Certificate, now: nat) returns (ok: bool, panics: bool)
    ensures ok <==> WellFormed(cert, now)
    ensures panics <==> PanicsOnValidate(cert)
  {
    if cert.key == cert.signer || cert.keyId == "" || cert.paths == [] {
      return false, false;
    }
    for i := 0 to |cert.paths|
      invariant AbsoluteUpTo(cert, i)
    {
      assert cert.paths[i] in cert.paths;
      if cert.paths[i] == "" {
        return false, true;
      }
      if cert.paths[i][0] != '/' {
        assert !PanicsOnValidate(cert) by { RelativeFirst(cert, i); }
        return false, false;
      }
    }
    AllAbsolute(cert);
    ok := ValidateCapabilities(cert);
    return ok && cert.genuine && InForce(cert, now), false;
  }

  lemma RelativeFirst(cert: Certificate, i: nat)
    requires i < |cert.paths| && AbsoluteUpTo(cert, i) && cert.paths[i] != "" && cert.paths[i][0] != '/'
    ensures !PanicsOnValidate(cert)
  {
  }

  lemma AllAbsolute(cert: Certificate)
    requires AbsoluteUpTo(cert, |cert.paths|)
    ensures !PanicsOnValidate(cert) && forall p :: p in cert.paths ==> p != "" && p[0] == '/'
  {
  }

  /** Its loop over the capabilities. */
  method ValidateCapabilities(cert: Certificate) returns (ok: bool)
    ensures ok <==>
            && cert.capabilities != []
            && ((forall c :: c in cert.capabilities ==> c.Admin()) || (forall c :: c in cert.capabilities ==> c.User()))
  {
    if cert.capabilities == [] {
      return false;
    }
    var admin: Option<bool> := None;
    for i := 0 to |cert.capabilities|
      invariant admin.Some? <==> i > 0
      invariant admin.Some? ==> admin.value == cert.capabilities[0].Admin()
      invariant forall c :: c in cert.capabilities[..i] ==> c.Valid() && admin.Some? && c.Admin() == admin.value
    {
      var c := cert.capabilities[i];
      assert c in cert.capabilities && cert.capabilities[0] in cert.capabilities;
      if !c.Valid() {
        return false;
      }
      if admin.None? {
        admin := Some(c.Admin());
      }
      if admin.value != c.Admin() {
        return false;
      }
      assert cert.capabilities[..i + 1] == cert.capabilities[..i] + [c];
    }
    assert cert.capabilities[..|cert.capabilities|] == cert.capabilities;
    return true;
  }

  /** Certificate.Admin looks at one capability. */
  predicate IsAdmin(cert: Certificate) {
    cert.capabilities != [] && cert.capabilities[0].Admin()
  }

  // ----- The table -----

  datatype Row = Row(key: Key, capability: Capability, path: string, priority: nat, validAfter: nat, validBefore: nat)

  function WithSlash(path: string): (r: string)
    ensures path <= r && |r| <= |path| + 1 && r != "" && r[|r| - 1] == '/'
    ensures path != "" && path[|path| - 1] == '/' ==> r == path
  {
    if path == "" || path[|path| - 1] != '/' then path + "/" else path
  }

  /** The row gives the key the capability over the directory, or over one below it. */
  predicate Grants(r: Row, key: Key, c: Capability, dir: string, now: nat)
    requires dir != ""
  {
    && r.key == key && r.capability == c && r.validAfter <= now < r.validBefore
    && Matches(WithSlash(dir) + "*", r.path)
  }

  /** Check. */
  predicate Passes(rows: set<Row>, key: Key, c: Capability, dir: string, now: nat)
    requires dir != ""
  {
    exists r :: r in rows && Grants(r, key, c, dir, now)
  }

  predicate Authorised(master: Key, rows: set<Row>, cert: Certificate, now: nat)
    requires WellFormed(cert, now)
  {
    if IsAdmin(cert) then cert.signer == master
    else forall p, c :: p in cert.paths && c in cert.capabilities ==> Passes(rows, cert.signer, Required(c), p, now)
  }

  predicate Accepted(master: Key, rows: set<Row>, cert: Certificate, now: nat) {
    WellFormed(cert, now) && Authorised(master, rows, cert, now)
  }

  function RowOf(cert: Certificate, i: nat, c: Capability): Row
    requires i < |cert.paths|
  {
    Row(cert.key, c, WithSlash(cert.paths[i]), i, cert.validAfter, cert.validBefore)
  }

  function RowsOf(cert: Certificate): set<Row> {
    RowsFor(cert, |cert.paths|)
  }

  /** The rows for the first n paths. */
  function RowsFor(cert: Certificate, n: nat): set<Row>
    requires n <= |cert.paths|
  {
    set i, c | 0 <= i < n && c in cert.capabilities :: RowOf(cert, i, c)
  }

  function RowsAt(cert: Certificate, i: nat, capabilities: seq<Capability>): set<Row>
    requires i < |cert.paths|
  {
    set c | c in capabilities :: RowOf(cert, i, c)
  }

  function RowsOfAll(certs: seq<Certificate>): set<Row> {
    set k, r | 0 <= k < |certs| && r in RowsOf(certs[k]) :: r
  }

  predicate Removed(admin: bool, c: Capability) {
    if admin then c.Admin() else c.User()
  }

  /** A certificate file; None when it does not hold a certificate. */
  type File = Option<Certificate>

  /** The table after loadCerts: the tier's rows are replaced by those of the accepted certificates. */
  function Loaded(master: Key, rows: set<Row>, files: seq<File>, admin: bool, now: nat): set<Row> {
    (set r | r in rows && !Removed(admin, r.capability)) + Granted(master, rows, files, now)
  }

  /** database/sql takes no unsigned number with its highest bit set, such as the time that means forever. */
  predicate Insertable(cert: Certificate) {
    cert.validAfter < 0x8000_0000_0000_0000 && cert.validBefore < 0x8000_0000_0000_0000
  }

  datatype Ending = Committed | RolledBack | Crashed

  /** How a load ends; healthy says that the database does not fail of itself. */
  function EndingOf(master: Key, rows: set<Row>, files: seq<File>, now: nat, healthy: bool): Ending {
    if exists f :: f in files && f.Some? && PanicsOnValidate(f.value) then Crashed
    else if healthy && forall f :: f in files && f.Some? && Accepted(master, rows, f.value, now) ==> Insertable(f.value)
    then Committed
    else RolledBack
  }

  /** One accepted certificate that never expires keeps the whole load from taking effect. */
  lemma EndlessBlocks(master: Key, rows: set<Row>, files: seq<File>, now: nat, healthy: bool, cert: Certificate)
    requires Some(cert) in files && Accepted(master, rows, cert, now) && cert.validBefore == INFINITY
    ensures EndingOf(master, rows, files, now, healthy) != Committed
  {
    hide Accepted;
    assert !Insertable(Some(cert).value);
  }

  /** The rows of the certificates that are accepted against the table. */
  function Granted(master: Key, rows: set<Row>, files: seq<File>, now: nat): set<Row> {
    (set f, r | f in files && f.Some? && Accepted(master, rows, f.value, now) && r in RowsOf(f.value) :: r)
  }

  lemma OneMore(certs: seq<Certificate>, i: nat)
    requires i < |certs|
    ensures RowsOfAll(certs[..i + 1]) == RowsOfAll(certs[..i]) + RowsOf(certs[i])
  {
    hide RowsOf;
    var longer := certs[..i + 1];
    assert forall k :: 0 <= k < i ==> longer[k] == certs[..i][k];
    assert longer[i] == certs[i];
  }

  lemma NoRows()
    ensures RowsOfAll([]) == {}
  {
  }

  lemma SameRows(master: Key, rows: set<Row>, files: seq<File>, now: nat, certs: seq<Certificate>)
    requires forall cert :: cert in certs <==> Some(cert) in files && Accepted(master, rows, cert, now)
    ensures RowsOfAll(certs) == Granted(master, rows, files, now)
  {
    hide RowsOf, Accepted;
    forall r
      ensures r in RowsOfAll(certs) <==> r in Granted(master, rows, files, now)
    {
      if r in RowsOfAll(certs) {
        var k :| 0 <= k < |certs| && r in RowsOf(certs[k]);
        assert certs[k] in certs;
        assert Some(certs[k]) in files;
      }
      if r in Granted(master, rows, files, now) {
        var f :| f in files && f.Some? && Accepted(master, rows, f.value, now) && r in RowsOf(f.value);
        assert f == Some(f.value);
        assert f.value in certs;
      }
    }
  }

  /** The insertion loops of loadCerts for one certificate. */
  method Insert(cert: Certificate, to: set<Row>) returns (table: set<Row>)
    ensures table == to + RowsOf(cert)
  {
    hide RowOf;
    table := to;
    for i := 0 to |cert.paths|
      invariant table == to + RowsFor(cert, i)
    {
      hide RowsFor;
      for j := 0 to |cert.capabilities|
        invariant table == to + RowsFor(cert, i) + RowsAt(cert, i, cert.capabilities[..j])
      {
        var c := cert.capabilities[j];
        table := table + {RowOf(cert, i, c)};
        assert cert.capabilities[..j + 1] == cert.capabilities[..j] + [c];
        assert RowsAt(cert, i, cert.capabilities[..j + 1]) == RowsAt(cert, i, cert.capabilities[..j]) + {RowOf(cert, i, c)};
      }
      assert cert.capabilities[..|cert.capabilities|] == cert.capabilities;
      NextPath(cert, i);
    }
  }

  lemma NextPath(cert: Certificate, i: nat)
    requires i < |cert.paths|
    ensures RowsFor(cert, i + 1) == RowsFor(cert, i) + RowsAt(cert, i, cert.capabilities)
  {
    hide RowOf;
  }

  class ACL {
    const master: Key
    var rows: set<Row>

    constructor (master: Key)
      ensures this.master == master && rows == {}
    {
      this.master, rows := master, {};
    }

    /** ACL.Validate. */
    method Validate(cert: Certificate, now: nat) returns (ok: bool)
      requires WellFormed(cert, now)
      ensures ok <==> Authorised(master, rows, cert, now)
    {
      var admin := IsAdmin(cert);
      if admin {
        return cert.signer == master;
      }
      forall k | 0 <= k < |cert.paths|
        ensures cert.paths[k] != ""
      {
        assert cert.paths[k] in cert.paths;
      }
      hide Passes, WellFormed;
      for i := 0 to |cert.paths|
        invariant forall p, c :: p in cert.paths[..i] && c in cert.capabilities ==>
                                   p != "" && Passes(rows, cert.signer, Required(c), p, now)
      {
        var p := cert.paths[i];
        for j := 0 to |cert.capabilities|
          invariant forall c :: c in cert.capabilities[..j] ==> Passes(rows, cert.signer, Required(c), p, now)
        {
          if !Passes(rows, cert.signer, Required(cert.capabilities[j]), p, now) {
            assert p in cert.paths && cert.capabilities[j] in cert.capabilities;
            return false;
          }
          assert cert.capabilities[..j + 1] == cert.capabilities[..j] + [cert.capabilities[j]];
        }
        assert cert.capabilities[..|cert.capabilities|] == cert.capabilities;
        assert cert.paths[..i + 1] == cert.paths[..i] + [p];
      }
      assert cert.paths[..|cert.paths|] == cert.paths;
      return true;
    }

    /**
     loadCerts. Certificates are validated against the table as it was; then the rows of the tier
     are replaced in one transaction, unless one of them cannot be inserted.
     */
    method LoadCerts(files: seq<File>, admin: bool, now: nat, healthy: bool) returns (rejected: nat, ending: Ending)
      modifies this
      ensures ending == EndingOf(master, old(rows), files, now, healthy)
      ensures rows == if ending == Committed then Loaded(master, old(rows), files, admin, now) else old(rows)
      ensures ending != Crashed ==>
                (rejected == 0 <==> forall f :: f in files ==> f.Some? && Accepted(master, old(rows), f.value, now))
    {
      hide Matches, WellFormed, RowsOf, RowsOfAll, Authorised, PanicsOnValidate, Insertable, Loaded;
      var certs: seq<Certificate>;
      var crashed: bool;
      certs, rejected, crashed := Select(files, now);
      if crashed {
        return rejected, Crashed;
      }
      var kept := set r | r in rows && !Removed(admin, r.capability);
      var table := kept;
      assert RowsOfAll(certs[..0]) == {} by { NoRows(); assert certs[..0] == []; }
      for i := 0 to |certs|
        invariant rows == old(rows)
        invariant table == kept + RowsOfAll(certs[..i])
        invariant forall cert :: cert in certs[..i] ==> Insertable(cert)
      {
        if !Insertable(certs[i]) {
          assert certs[i] in certs;
          assert Some(certs[i]) in files && !Insertable(Some(certs[i]).value);
          return rejected, RolledBack;
        }
        table := Insert(certs[i], table);
        OneMore(certs, i);
        assert certs[..i + 1] == certs[..i] + [certs[i]];
      }
      assert certs[..|certs|] == certs;
      SameRows(master, rows, files, now, certs);
      AllInsertable(master, rows, files, now, certs);
      LoadedIs(master, rows, files, admin, now);
      if !healthy {
        return rejected, RolledBack;
      }
      rows := table;
      return rejected, Committed;
    }

    /** The first loop of loadCerts. */
    method Select(files: seq<File>, now: nat) returns (certs: seq<Certificate>, rejected: nat, crashed: bool)
      ensures crashed <==> exists f :: f in files && f.Some? && PanicsOnValidate(f.value)
      ensures !crashed ==>
                && (forall cert :: cert in certs <==> Some(cert) in files && Accepted(master, rows, cert, now))
                && (rejected == 0 <==> forall f :: f in files ==> f.Some? && Accepted(master, rows, f.value, now))
    {
      hide Matches, WellFormed, Authorised, PanicsOnValidate;
      certs, rejected := [], 0;
      for i := 0 to |files|
        invariant forall cert :: cert in certs <==> Some(cert) in files[..i] && Accepted(master, rows, cert, now)
        invariant rejected == 0 <==> forall f :: f in files[..i] ==> f.Some? && Accepted(master, rows, f.value, now)
        invariant forall f :: f in files[..i] && f.Some? ==> !PanicsOnValidate(f.value)
      {
        assert files[..i + 1] == files[..i] + [files[i]];
        var ok := false;
        if files[i].Some? {
          ok, crashed := ValidateCertificate(files[i].value, now);
          if crashed {
            assert files[i] in files;
            return;
          }
          if ok {
            ok := Validate(files[i].value, now);
          }
        }
        if ok {
          certs := certs + [files[i].value];
        } else {
          rejected := rejected + 1;
        }
      }
      assert files[..|files|] == files;
      crashed := false;
    }

    /** Load: administrators first, so that users are validated against the new administrators. */
    method Load(admins: seq<File>, users: seq<File>, now1: nat, now2: nat, healthy1: bool, healthy2: bool)
      returns (ending: Ending)
      modifies this
      ensures
        var first := EndingOf(master, old(rows), admins, now1, healthy1);
        if first != Committed then ending == first && rows == old(rows)
        else
          var mid := Loaded(master, old(rows), admins, true, now1);
          && ending == EndingOf(master, mid, users, now2, healthy2)
          && rows == if ending == Committed then Loaded(master, mid, users, false, now2) else mid
    {
      hide EndingOf, Loaded, Accepted;
      var _, first := LoadCerts(admins, true, now1, healthy1);
      if first != Committed {
        return first;
      }
      var _, second := LoadCerts(users, false, now2, healthy2);
      return second;
    }
  }

  lemma LoadedIs(master: Key, rows: set<Row>, files: seq<File>, admin: bool, now: nat)
    ensures Loaded(master, rows, files, admin, now) ==
            (set r | r in rows && !Removed(admin, r.capability)) + Granted(master, rows, files, now)
  {
    hide Granted;
  }

  lemma AllInsertable(master: Key, rows: set<Row>, files: seq<File>, now: nat, certs: seq<Certificate>)
    requires forall cert :: cert in certs <==> Some(cert) in files && Accepted(master, rows, cert, now)
    requires forall cert :: cert in certs ==> Insertable(cert)
    ensures forall f :: f in files && f.Some? && Accepted(master, rows, f.value, now) ==> Insertable(f.value)
  {
    hide Accepted, Insertable;
    forall f | f in files && f.Some? && Accepted(master, rows, f.value, now)
      ensures Insertable(f.value)
    {
      assert f == Some(f.value);
      assert f.value in certs;
    }
  }

  // ----- What passing a check means -----

  predicate LiteralPaths(files: seq<File>) {
    forall f, p :: f in files && f.Some? && p in f.value.paths ==> Literal(p)
  }

  /** For a literal directory, Check passes exactly when a valid row lies at or below the directory. */
  lemma CheckMeaning(rows: set<Row>, key: Key, c: Capability, dir: string, now: nat)
    requires dir != "" && Literal(dir)
    ensures Passes(rows, key, c, dir, now) <==>
            exists r :: r in rows && r.key == key && r.capability == c && r.validAfter <= now < r.validBefore
                        && WithSlash(dir) <= r.path
  {
    hide Matches;
    forall r | r in rows
      ensures Matches(WithSlash(dir) + "*", r.path) <==> WithSlash(dir) <= r.path
    {
      PrefixExactly(WithSlash(dir), r.path);
    }
  }

  /** Whoever passes a check on a directory passes it on every directory above. */
  lemma AncestorsPass(rows: set<Row>, key: Key, c: Capability, dir: string, above: string, now: nat)
    requires dir != "" && above != "" && Literal(above) && WithSlash(above) <= WithSlash(dir)
    requires Passes(rows, key, c, dir, now)
    ensures Passes(rows, key, c, above, now)
  {
    hide Matches;
    var r :| r in rows && Grants(r, key, c, dir, now);
    var front := WithSlash(above);
    var rest := WithSlash(dir)[|front|..] + "*";
    assert WithSlash(dir) + "*" == front + rest;
    LiteralFront(front, rest, r.path);
    PrefixExactly(front, r.path);
    assert Grants(r, key, c, above, now);
  }

  // ----- Which certificates count -----

  predicate ForAdmins(cert: Certificate) {
    cert.capabilities != [] && forall c :: c in cert.capabilities ==> c == ManageReaders || c == ManageWriters
  }

  predicate ForUsers(cert: Certificate) {
    cert.capabilities != [] && forall c :: c in cert.capabilities ==> c == Read || c == Write
  }

  /** A genuine certificate for somebody else, named, with absolute paths, within its period. */
  predicate InOrder(cert: Certificate, now: nat) {
    && cert.genuine && cert.key != cert.signer && |cert.keyId| > 0
    && |cert.paths| > 0 && (forall i :: 0 <= i < |cert.paths| ==> |cert.paths[i]| > 0 && cert.paths[i][0] == '/')
    && cert.validAfter <= now && cert.validAfter < 0x8000_0000_0000_0000
    && (now < cert.validBefore < 0x8000_0000_0000_0000 || cert.validBefore == 0xFFFF_FFFF_FFFF_FFFF)
  }

  /**
   A certificate is accepted exactly when it is in order and either for administrators and signed by
   the master key, or for users and signed by someone who may manage readers, for reading, and
   writers, for writing, over all its paths.
   */
  lemma AcceptedExactly(master: Key, rows: set<Row>, cert: Certificate, now: nat)
    ensures Accepted(master, rows, cert, now) <==>
            && InOrder(cert, now)
            && ((ForAdmins(cert) && cert.signer == master)
                || (ForUsers(cert) && forall p :: p in cert.paths ==>
                      && p != ""
                      && (Read in cert.capabilities ==> Passes(rows, cert.signer, ManageReaders, p, now))
                      && (Write in cert.capabilities ==> Passes(rows, cert.signer, ManageWriters, p, now))))
  {
    hide Passes;
    WellFormedExactly(cert, now);
    hide WellFormed, InOrder;
    if cert.capabilities != [] {
      assert cert.capabilities[0] in cert.capabilities;
    }
    if Accepted(master, rows, cert, now) && ForUsers(cert) {
      forall p | p in cert.paths
        ensures p != "" && (Read in cert.capabilities ==> Passes(rows, cert.signer, Required(Read), p, now))
        ensures Write in cert.capabilities ==> Passes(rows, cert.signer, Required(Write), p, now)
      {
      }
    }
  }

  lemma WellFormedExactly(cert: Certificate, now: nat)
    ensures WellFormed(cert, now) <==> InOrder(cert, now) && (ForAdmins(cert) || ForUsers(cert))
    ensures WellFormed(cert, now) ==> forall p :: p in cert.paths ==> p != ""
  {
    assert (forall p :: p in cert.paths ==> p != "" && p[0] == '/') <==>
           (forall i :: 0 <= i < |cert.paths| ==> |cert.paths[i]| > 0 && cert.paths[i][0] == '/') by {
      forall i | 0 <= i < |cert.paths|
        ensures cert.paths[i] in cert.paths
      {
      }
    }
  }

  // ----- What a certificate grants -----

  /** The certificate gives the key the capability over the directory, or over one below it, at that time. */
  predicate CertGrants(cert: Certificate, key: Key, c: Capability, dir: string, at: nat) {
    && cert.key == key && c in cert.capabilities && cert.validAfter <= at < cert.validBefore
    && exists p :: p in cert.paths && Matches(WithSlash(dir) + "*", WithSlash(p))
  }

  /** Its rows grant exactly that. */
  lemma RowsGrant(cert: Certificate, key: Key, c: Capability, dir: string, at: nat)
    requires dir != ""
    ensures (exists r :: r in RowsOf(cert) && Grants(r, key, c, dir, at)) <==> CertGrants(cert, key, c, dir, at)
  {
    hide Matches, WithSlash;
    if r :| r in RowsOf(cert) && Grants(r, key, c, dir, at) {
      var i, d :| 0 <= i < |cert.paths| && d in cert.capabilities && r == RowOf(cert, i, d);
      assert cert.paths[i] in cert.paths;
    }
    if CertGrants(cert, key, c, dir, at) {
      var p :| p in cert.paths && Matches(WithSlash(dir) + "*", WithSlash(p));
      var i :| 0 <= i < |cert.paths| && cert.paths[i] == p;
      assert RowOf(cert, i, c) in RowsOf(cert);
      assert Grants(RowOf(cert, i, c), key, c, dir, at);
    }
  }

  /** Some certificate among the files is accepted and grants this. */
  ghost predicate SomeGrants(master: Key, rows: set<Row>, files: seq<File>, now: nat,
                             key: Key, c: Capability, dir: string, at: nat)
  {
    exists cert :: Some(cert) in files && Accepted(master, rows, cert, now) && CertGrants(cert, key, c, dir, at)
  }

  lemma GrantedExactly(master: Key, rows: set<Row>, files: seq<File>, now: nat,
                       key: Key, c: Capability, dir: string, at: nat)
    requires dir != ""
    ensures Passes(Granted(master, rows, files, now), key, c, dir, at)
            <==> SomeGrants(master, rows, files, now, key, c, dir, at)
  {
    hide RowsOf, Accepted, Grants, CertGrants;
    if Passes(Granted(master, rows, files, now), key, c, dir, at) {
      var r :| r in Granted(master, rows, files, now) && Grants(r, key, c, dir, at);
      var f :| f in files && f.Some? && Accepted(master, rows, f.value, now) && r in RowsOf(f.value);
      assert f == Some(f.value);
      RowsGrant(f.value, key, c, dir, at);
    }
    if cert :| Some(cert) in files && Accepted(master, rows, cert, now) && CertGrants(cert, key, c, dir, at) {
      RowsGrant(cert, key, c, dir, at);
      var r :| r in RowsOf(cert) && Grants(r, key, c, dir, at);
      assert Some(cert).value == cert;
      assert r in Granted(master, rows, files, now);
    }
  }

  /** Nothing stands in the way of the load: the database works, no certificate panics or never expires. */
  ghost predicate Unhindered(master: Key, rows: set<Row>, l: Load) {
    && l.healthy
    && (forall f :: f in l.files && f.Some? ==> !PanicsOnValidate(f.value))
    && (forall f :: f in l.files && f.Some? && Accepted(master, rows, f.value, l.now) ==>
          f.value.validBefore < 0x8000_0000_0000_0000)
  }

  /**
   Who passes a check after a load. If nothing hinders it: whoever has an accepted certificate that
   grants it, within its period; and in the other tier also whoever passed before. Otherwise nothing
   changes.
   */
  lemma CheckAfterLoad(master: Key, rows: set<Row>, l: Load, key: Key, c: Capability, dir: string, at: nat)
    requires dir != ""
    ensures
      Passes(After(master, rows, l), key, c, dir, at) <==>
      if Unhindered(master, rows, l)
      then SomeGrants(master, rows, l.files, l.now, key, c, dir, at)
           || (!(if l.admin then c == ManageReaders || c == ManageWriters else c == Read || c == Write)
               && Passes(rows, key, c, dir, at))
      else Passes(rows, key, c, dir, at)
  {
    GrantedExactly(master, rows, l.files, l.now, key, c, dir, at);
    CommitsExactly(master, rows, l);
    hide Granted, SomeGrants, Unhindered, EndingOf, Accepted;
    if EndingOf(master, rows, l.files, l.now, l.healthy) == Committed {
      SplitPasses(rows, Granted(master, rows, l.files, l.now), l.admin, key, c, dir, at);
    }
  }

  lemma CommitsExactly(master: Key, rows: set<Row>, l: Load)
    ensures EndingOf(master, rows, l.files, l.now, l.healthy) == Committed <==> Unhindered(master, rows, l)
  {
    forall f | f in l.files && f.Some? && Accepted(master, rows, f.value, l.now)
      ensures f.value.validAfter < 0x8000_0000_0000_0000
    {
    }
    hide Accepted, PanicsOnValidate;
  }

  lemma SplitPasses(rows: set<Row>, more: set<Row>, admin: bool, key: Key, c: Capability, dir: string, at: nat)
    requires dir != ""
    ensures
      var kept := set r | r in rows && !Removed(admin, r.capability);
      Passes(kept + more, key, c, dir, at) <==>
      Passes(more, key, c, dir, at) || (!Removed(admin, c) && Passes(rows, key, c, dir, at))
  {
    hide Matches;
    var kept := set r | r in rows && !Removed(admin, r.capability);
    if r :| r in kept + more && Grants(r, key, c, dir, at) {
      assert r in kept || r in more;
    }
    if r :| r in rows && Grants(r, key, c, dir, at) {
      assert !Removed(admin, c) ==> r in kept + more;
    }
    if r :| r in more && Grants(r, key, c, dir, at) {
      assert r in kept + more;
    }
  }

  /** The row was made from a certificate that was accepted when the files were loaded. */
  ghost predicate MadeFrom(master: Key, rows: set<Row>, files: seq<File>, now: nat, cert: Certificate, r: Row) {
    Some(cert) in files && Accepted(master, rows, cert, now) && r in RowsOf(cert)
  }

  /** After a load of a tier no older row of that tier is left, and the other tier keeps its rows. */
  lemma LoadReplaces(master: Key, rows: set<Row>, files: seq<File>, admin: bool, now: nat, r: Row)
    ensures r in rows && !Removed(admin, r.capability) ==> r in Loaded(master, rows, files, admin, now)
    ensures r in Loaded(master, rows, files, admin, now) && (Removed(admin, r.capability) || r !in rows) ==>
              exists cert :: MadeFrom(master, rows, files, now, cert, r)
  {
    hide RowsOf, Accepted;
    if r in Granted(master, rows, files, now) {
      var f :| f in files && f.Some? && Accepted(master, rows, f.value, now) && r in RowsOf(f.value);
      assert f == Some(f.value);
      assert MadeFrom(master, rows, files, now, f.value, r);
    }
  }

  /** Rows of the administrator tier come from certificates signed by the master key. */
  lemma AdminRowsFromMaster(master: Key, rows: set<Row>, files: seq<File>, now: nat, cert: Certificate, r: Row)
    requires MadeFrom(master, rows, files, now, cert, r) && r.capability.Admin()
    ensures cert.signer == master
  {
    assert r.capability in cert.capabilities;
    assert cert.capabilities[0] in cert.capabilities;
  }

  /** The signer of a user row passes, for the capability required of signers, every check the row passes. */
  lemma UserRowsFromAdmins(master: Key, rows: set<Row>, files: seq<File>, at: nat, cert: Certificate, r: Row,
                           dir: string, now: nat) returns (admin: Row)
    requires MadeFrom(master, rows, files, at, cert, r) && LiteralPaths(files)
    requires r.capability.User() && dir != "" && Grants(r, r.key, r.capability, dir, now)
    ensures admin in rows && Grants(admin, cert.signer, Required(r.capability), dir, at)
  {
    hide Matches, Grants, Literal;
    var p := SignerChecked(master, rows, cert, at, r);
    assert Literal(p) by { assert Some(cert) in files; }
    admin :| admin in rows && Grants(admin, cert.signer, Required(r.capability), p, at);
    Narrower(r, admin, cert.signer, p, dir, at, now);
  }

  lemma SignerChecked(master: Key, rows: set<Row>, cert: Certificate, at: nat, r: Row) returns (p: string)
    requires Accepted(master, rows, cert, at) && r in RowsOf(cert) && r.capability.User()
    ensures p in cert.paths && p != "" && r.path == WithSlash(p)
    ensures Passes(rows, cert.signer, Required(r.capability), p, at)
  {
    hide Passes;
    var i, c :| 0 <= i < |cert.paths| && c in cert.capabilities && r == RowOf(cert, i, c);
    p := cert.paths[i];
    assert p in cert.paths && cert.capabilities[0] in cert.capabilities;
  }

  lemma Narrower(r: Row, admin: Row, signer: Key, p: string, dir: string, at: nat, now: nat)
    requires p != "" && Literal(p) && r.path == WithSlash(p) && Grants(admin, signer, Required(r.capability), p, at)
    requires dir != "" && Grants(r, r.key, r.capability, dir, now)
    ensures Grants(admin, signer, Required(r.capability), dir, at)
  {
    hide Matches;
    PrefixExactly(r.path, admin.path);
    StarExtends(WithSlash(dir) + "*", r.path, admin.path[|r.path|..]);
    assert r.path + admin.path[|r.path|..] == admin.path;
  }

  /**
   After a complete Load every user that passes a check was certified by an administrator that, at
   load time and in the table that results, passes the matching check on the same directory, through
   a row of a certificate that the master key signed.
   */
  lemma LoadedDelegation(master: Key, rows: set<Row>, admins: seq<File>, users: seq<File>, now1: nat, now2: nat,
                         key: Key, c: Capability, dir: string, now: nat)
    returns (user: Certificate, admin: Row, root: Certificate)
    requires LiteralPaths(users) && c.User() && dir != ""
    requires Passes(Loaded(master, Loaded(master, rows, admins, true, now1), users, false, now2), key, c, dir, now)
    ensures Some(user) in users && CertGrants(user, key, c, dir, now) && InOrder(user, now2) && InOrder(root, now1)
    ensures CertGrants(root, user.signer, if c == Read then ManageReaders else ManageWriters, dir, now2)
    ensures admin in Loaded(master, Loaded(master, rows, admins, true, now1), users, false, now2)
    ensures Grants(admin, user.signer, Required(c), dir, now2)
    ensures MadeFrom(master, rows, admins, now1, root, admin) && root.signer == master
  {
    hide Matches, Loaded, Accepted;
    var mid := Loaded(master, rows, admins, true, now1);
    var last := Loaded(master, mid, users, false, now2);
    var r :| r in last && Grants(r, key, c, dir, now);
    LoadReplaces(master, mid, users, false, now2, r);
    user :| MadeFrom(master, mid, users, now2, user, r);
    admin := UserRowsFromAdmins(master, mid, users, now2, user, r, dir, now);
    LoadReplaces(master, mid, users, false, now2, admin);
    LoadReplaces(master, rows, admins, true, now1, admin);
    root :| MadeFrom(master, rows, admins, now1, root, admin);
    hide RowsOf, CertGrants, Grants;
    RowsGrant(user, key, c, dir, now);
    RowsGrant(root, user.signer, Required(c), dir, now2);
    AcceptedExactly(master, mid, user, now2);
    AcceptedExactly(master, rows, root, now1);
    AdminRowsFromMaster(master, rows, admins, now1, root, admin);
  }

  // ----- Histories of loads -----

  datatype Load = Load(files: seq<File>, admin: bool, now: nat, healthy: bool)

  function After(master: Key, rows: set<Row>, l: Load): set<Row> {
    if EndingOf(master, rows, l.files, l.now, l.healthy) == Committed then Loaded(master, rows, l.files, l.admin, l.now)
    else rows
  }

  /** tables[i] is the table before the i-th load. */
  ghost predicate History(master: Key, loads: seq<Load>, tables: seq<set<Row>>) {
    && |tables| == |loads| + 1 && tables[0] == {}
    && forall i :: 0 <= i < |loads| ==> tables[i + 1] == After(master, tables[i], loads[i])
  }

  /** Every row of every history comes from a certificate accepted by an earlier load. */
  lemma {:induction false} RowsHaveOrigin(master: Key, loads: seq<Load>, tables: seq<set<Row>>, i: nat, r: Row)
    returns (j: nat, cert: Certificate)
    requires History(master, loads, tables) && i < |tables| && r in tables[i]
    ensures j < i && MadeFrom(master, tables[j], loads[j].files, loads[j].now, cert, r)
  {
    hide Loaded, MadeFrom, EndingOf;
    assert i > 0;
    var l := loads[i - 1];
    assert tables[i - 1 + 1] == After(master, tables[i - 1], l);
    if r in tables[i - 1] {
      j, cert := RowsHaveOrigin(master, loads, tables, i - 1, r);
    } else {
      LoadReplaces(master, tables[i - 1], l.files, l.admin, l.now, r);
      cert :| MadeFrom(master, tables[i - 1], l.files, l.now, cert, r);
      j := i - 1;
    }
  }

  /**
   However certificates were loaded and reloaded: a user that passes a check was certified by a
   signer that passed the matching check on the same directory at that time, through a row made
   still earlier from a certificate that the master key signed.
   */
  lemma DelegationChain(master: Key, loads: seq<Load>, tables: seq<set<Row>>, i: nat,
                        key: Key, c: Capability, dir: string, now: nat)
    returns (j: nat, user: Certificate, admin: Row, k: nat, root: Certificate)
    requires History(master, loads, tables) && i < |tables| && c.User() && dir != ""
    requires forall l :: l in loads ==> LiteralPaths(l.files)
    requires Passes(tables[i], key, c, dir, now)
    ensures k < j < i && Some(user) in loads[j].files && CertGrants(user, key, c, dir, now)
    ensures InOrder(user, loads[j].now) && InOrder(root, loads[k].now)
    ensures CertGrants(root, user.signer, if c == Read then ManageReaders else ManageWriters, dir, loads[j].now)
    ensures admin in tables[j] && Grants(admin, user.signer, Required(c), dir, loads[j].now)
    ensures MadeFrom(master, tables[k], loads[k].files, loads[k].now, root, admin) && root.signer == master
  {
    hide Matches, Loaded, Accepted;
    var r :| r in tables[i] && Grants(r, key, c, dir, now);
    j, user := RowsHaveOrigin(master, loads, tables, i, r);
    assert loads[j] in loads;
    admin := UserRowsFromAdmins(master, tables[j], loads[j].files, loads[j].now, user, r, dir, now);
    k, root := RowsHaveOrigin(master, loads, tables, j, admin);
    hide RowsOf, CertGrants, Grants;
    RowsGrant(user, key, c, dir, now);
    RowsGrant(root, user.signer, Required(c), dir, loads[j].now);
    AcceptedExactly(master, tables[j], user, loads[j].now);
    AcceptedExactly(master, tables[k], root, loads[k].now);
    AdminRowsFromMaster(master, tables[k], loads[k].files, loads[k].now, root, admin);
  }
}
