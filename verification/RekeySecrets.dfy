/** Re-encryption of every stored secret under the master key
    (migrations/system/2026-05-10-002-rekey-secrets.ts), killed anywhere and run again. */
module RekeySecrets {
  import opened Common

  type Key = string
  type Text = string

  const IV_BYTES := 12
  const TAG_BYTES := 16
  const KEY_LEN := 32

  /** AES-256-GCM behind base64, kept abstract: `size` is the decoded length, `open` what
      decipher plus tag check yield. */
  datatype Cipher = Cipher(
    seal: (Key, string, Text) -> string, open: (Key, string) -> Option<Text>, size: string -> nat)

  /** Ideal authenticated encryption (NIST SP 800-38D, section 7): the sealing key opens a blob to its
      plaintext, no other key opens it, nothing opens that was not sealed, and a blob is as long as its
      plaintext plus IV and tag. */
  ghost predicate Ideal(c: Cipher) {
    && (forall k, n, p :: c.open(k, c.seal(k, n, p)) == Some(p))
    && (forall k, k', n, p | k != k' :: c.open(k', c.seal(k, n, p)) == None)
    && (forall k, b :: c.open(k, b).Some? ==> Sealed(c, k, b))
    && (forall k, b :: c.open(k, b).Some? ==> c.size(b) == IV_BYTES + TAG_BYTES + |c.open(k, b).value|)
  }

  ghost predicate Sealed(c: Cipher, key: Key, blob: string) {
    exists n, p :: blob == c.seal(key, n, p)
  }

  function DecGcm(c: Cipher, key: Key, blob: string): Option<Text> {
    if c.size(blob) < IV_BYTES + TAG_BYTES + 1 then None else c.open(key, blob)
  }

  datatype Rekeyed = AlreadyNew | NewBlob(blob: string) | LegacyKeyMissing | DecryptFailed

  function RekeyBlob(c: Cipher, blob: string, newKey: Key, legacy: Option<Key>, nonce: string): Rekeyed {
    if DecGcm(c, newKey, blob).Some? then AlreadyNew
    else if legacy == None then LegacyKeyMissing
    else match DecGcm(c, legacy.value, blob)
      case None => DecryptFailed
      case Some(plain) => NewBlob(c.seal(newKey, nonce, plain))
  }

  // ------------------------------------------------------------------ the store

  datatype Cell = Cell(id: string, blob: Option<string>)

  datatype Site = Site(
    id: string, ssh: Option<Text>, sshEnc: Option<string>, cms: Option<Text>, cmsEnc: Option<string>)

  /** A table is None when the table or its blob column is missing. */
  datatype Store = Store(
    sites: seq<Site>, sshColumn: bool, cmsColumn: bool,
    databases: Option<seq<Cell>>, dnsProviders: Option<seq<Cell>>, vpnServices: Option<seq<Cell>>,
    vpnUsers: Option<seq<Cell>>, migrationSources: Option<seq<Cell>>)

  /** The keys hkdf derives from the master key, one per secret domain. */
  datatype NewKeys = NewKeys(ssh: Key, cms: Key, databases: Key, dns: Key, vpn: Key, migration: Key)

  /** One execution of `up`. It dies in phase `phase` after `row` of that phase's rows; phases past the
      last mean it finished. A probe is false when the PRAGMA inside hasColumn threw and was swallowed. */
  datatype Run = Run(
    legacyDns: Option<Key>, legacyVpn: Option<Key>, legacyMigration: Option<Key>,
    nonce: (nat, nat) -> string, sshProbe: bool, cmsProbe: bool, databasesProbe: bool,
    phase: nat, row: nat)

  const SSH: nat := 0
  const CMS: nat := 1
  const DATABASES: nat := 2
  const DNS: nat := 3
  const SERVICES: nat := 4
  const USERS: nat := 5
  const SOURCES: nat := 6
  const DROP_SSH: nat := 7
  const DROP_CMS: nat := 8
  const DONE: nat := 9

  predicate Finished(run: Run) { run.phase >= DONE }

  /** How many of the n rows of a phase were processed before the kill. */
  function Reached(run: Run, phase: nat, n: nat): (r: nat)
    ensures r <= n
  {
    if phase < run.phase then n else if phase == run.phase && run.row < n then run.row
    else if phase == run.phase then n else 0
  }

  // ------------------------------------------------------------- specification

  function RekeyCell(c: Cipher, cell: Cell, newKey: Key, legacy: Option<Key>, nonce: string, skipEmpty: bool): Cell {
    if cell.blob == None || (skipEmpty && (cell.id == "" || cell.blob == Some(""))) then cell
    else match RekeyBlob(c, cell.blob.value, newKey, legacy, nonce)
      case NewBlob(blob) => cell.(blob := Some(blob))
      case _ => cell
  }

  function RekeyRows(c: Cipher, rows: seq<Cell>, newKey: Key, legacy: Option<Key>,
                     nonce: nat -> string, skipEmpty: bool, upto: nat): seq<Cell>
    requires upto <= |rows|
  {
    seq(|rows|, i requires 0 <= i < |rows| =>
      if i < upto then RekeyCell(c, rows[i], newKey, legacy, nonce(i), skipEmpty) else rows[i])
  }

  /** encryptPlainPassword seals the JSON text {"password": plain}; `payload` is that serialisation. */
  function SshRow(c: Cipher, payload: Text -> Text, s: Site, key: Key, nonce: string): Site {
    if s.ssh == None then s
    else if s.sshEnc.Some? && s.sshEnc.value != "" then s.(ssh := None)
    else s.(sshEnc := Some(c.seal(key, nonce, payload(s.ssh.value))), ssh := None)
  }

  function CmsRow(c: Cipher, payload: Text -> Text, s: Site, key: Key, nonce: string): Site {
    if s.cms == None then s
    else if s.cmsEnc.Some? && s.cmsEnc.value != "" then s.(cms := None)
    else s.(cmsEnc := Some(c.seal(key, nonce, payload(s.cms.value))), cms := None)
  }

  function TableAfter(c: Cipher, table: Option<seq<Cell>>, newKey: Key, legacy: Option<Key>,
                      run: Run, phase: nat, skipEmpty: bool): Option<seq<Cell>> {
    if table == None then None
    else Some(RekeyRows(c, table.value, newKey, legacy, (i: nat) => run.nonce(phase, i), skipEmpty,
                        Reached(run, phase, |table.value|)))
  }

  /** Site i after the two password loops. */
  function SiteSealed(c: Cipher, payload: Text -> Text, keys: NewKeys, store: Store, run: Run, i: nat): Site
    requires i < |store.sites|
  {
    var s0 := store.sites[i];
    var s1 := if run.sshProbe && store.sshColumn && i < Reached(run, SSH, |store.sites|)
              then SshRow(c, payload, s0, keys.ssh, run.nonce(SSH, i)) else s0;
    if run.cmsProbe && store.cmsColumn && i < Reached(run, CMS, |store.sites|)
    then CmsRow(c, payload, s1, keys.cms, run.nonce(CMS, i)) else s1
  }

  function SiteAfter(c: Cipher, payload: Text -> Text, keys: NewKeys, store: Store, run: Run, i: nat): Site
    requires i < |store.sites|
  {
    var s2 := SiteSealed(c, payload, keys, store, run, i);
    var s3 := if store.sshColumn && run.phase > DROP_SSH then s2.(ssh := None) else s2;
    if store.cmsColumn && run.phase > DROP_CMS then s3.(cms := None) else s3
  }

  /** The store one run leaves behind, however far it got. */
  function After(c: Cipher, payload: Text -> Text, keys: NewKeys, store: Store, run: Run): Store {
    Store(
      seq(|store.sites|, i requires 0 <= i < |store.sites| => SiteAfter(c, payload, keys, store, run, i)),
      store.sshColumn && run.phase <= DROP_SSH,
      store.cmsColumn && run.phase <= DROP_CMS,
      if run.databasesProbe then TableAfter(c, store.databases, keys.databases, run.legacyDns, run, DATABASES, false)
      else store.databases,
      TableAfter(c, store.dnsProviders, keys.dns, run.legacyDns, run, DNS, true),
      TableAfter(c, store.vpnServices, keys.vpn, run.legacyVpn, run, SERVICES, true),
      TableAfter(c, store.vpnUsers, keys.vpn, run.legacyVpn, run, USERS, true),
      TableAfter(c, store.migrationSources, keys.migration, run.legacyMigration, run, SOURCES, true))
  }

  function AfterRuns(c: Cipher, payload: Text -> Text, keys: NewKeys, store: Store, runs: seq<Run>): Store
    decreases |runs|
  {
    if runs == [] then store
    else AfterRuns(c, payload, keys, After(c, payload, keys, store, runs[0]), runs[1..])
  }

  // -------------------------------------------------------------- blob theorems

  function Plain(c: Cipher, key: Key, cell: Cell): Option<Text> {
    if cell.blob == None then None else DecGcm(c, key, cell.blob.value)
  }

  /** Whatever any key K could read before, K or the new key reads afterwards. */
  ghost predicate Survives(c: Cipher, newKey: Key, before: Cell, after: Cell) {
    && before.id == after.id
    && forall k, p :: Plain(c, k, before) == Some(p) ==> Plain(c, k, after) == Some(p) || Plain(c, newKey, after) == Some(p)
  }

  lemma {:induction false} SealedReadsBack(c: Cipher, key: Key, nonce: string, plain: Text)
    requires Ideal(c)
    ensures plain != "" ==> DecGcm(c, key, c.seal(key, nonce, plain)) == Some(plain)
  {
  }

  lemma {:induction false} DecryptedIsNonEmpty(c: Cipher, key: Key, blob: string)
    requires Ideal(c) && DecGcm(c, key, blob).Some?
    ensures DecGcm(c, key, blob).value != ""
  {
  }

  lemma {:induction false} OneKeyOpens(c: Cipher, blob: string, k: Key, k': Key)
    requires Ideal(c)
    requires DecGcm(c, k, blob).Some? && DecGcm(c, k', blob).Some?
    ensures k == k'
  {
    var n, p :| blob == c.seal(k, n, p);
    assert c.open(k', c.seal(k, n, p)).Some?;
  }

  predicate Skipped(cell: Cell, skipEmpty: bool) {
    skipEmpty && (cell.id == "" || cell.blob == Some(""))
  }

  /** What a run can read in a cell, with the new key or the legacy key it found. */
  function TextOf(c: Cipher, cell: Cell, newKey: Key, legacy: Option<Key>): Option<Text> {
    if Plain(c, newKey, cell).Some? then Plain(c, newKey, cell)
    else if legacy.Some? then Plain(c, legacy.value, cell) else None
  }

  predicate Readable(c: Cipher, cell: Cell, newKey: Key, legacy: Option<Key>) { TextOf(c, cell, newKey, legacy).Some? }

  lemma {:induction false} RekeyCellSurvives(c: Cipher, cell: Cell, newKey: Key, legacy: Option<Key>, nonce: string, skipEmpty: bool)
    requires Ideal(c)
    ensures var after := RekeyCell(c, cell, newKey, legacy, nonce, skipEmpty);
            && Survives(c, newKey, cell, after)
            && (after != cell ==> legacy.Some? && Plain(c, legacy.value, cell).Some? && Plain(c, newKey, cell) == None)
            && (!Skipped(cell, skipEmpty) && Readable(c, cell, newKey, legacy) ==>
                  Plain(c, newKey, after) == TextOf(c, cell, newKey, legacy))
  {
    var after := RekeyCell(c, cell, newKey, legacy, nonce, skipEmpty);
    if after != cell {
      var plain := Plain(c, legacy.value, cell).value;
      DecryptedIsNonEmpty(c, legacy.value, cell.blob.value);
      SealedReadsBack(c, newKey, nonce, plain);
      forall k, p | Plain(c, k, cell) == Some(p) ensures Plain(c, newKey, after) == Some(p) {
        OneKeyOpens(c, cell.blob.value, k, legacy.value);
      }
    }
  }

  ghost predicate TableSurvives(c: Cipher, newKey: Key, before: Option<seq<Cell>>, after: Option<seq<Cell>>) {
    && before.Some? == after.Some?
    && (before.Some? ==>
          (|before.value| == |after.value|
           && forall i | 0 <= i < |before.value| :: Survives(c, newKey, before.value[i], after.value[i])))
  }

  lemma {:induction false} TableAfterSurvives(c: Cipher, table: Option<seq<Cell>>, newKey: Key, legacy: Option<Key>,
                           run: Run, phase: nat, skipEmpty: bool)
    requires Ideal(c)
    ensures TableSurvives(c, newKey, table, TableAfter(c, table, newKey, legacy, run, phase, skipEmpty))
  {
    if table.Some? {
      forall i | 0 <= i < |table.value|
        ensures Survives(c, newKey, table.value[i], TableAfter(c, table, newKey, legacy, run, phase, skipEmpty).value[i])
      {
        RekeyCellSurvives(c, table.value[i], newKey, legacy, run.nonce(phase, i), skipEmpty);
      }
    }
  }

  ghost predicate StoreSurvives(c: Cipher, keys: NewKeys, before: Store, after: Store) {
    && TableSurvives(c, keys.databases, before.databases, after.databases)
    && TableSurvives(c, keys.dns, before.dnsProviders, after.dnsProviders)
    && TableSurvives(c, keys.vpn, before.vpnServices, after.vpnServices)
    && TableSurvives(c, keys.vpn, before.vpnUsers, after.vpnUsers)
    && TableSurvives(c, keys.migration, before.migrationSources, after.migrationSources)
  }

  /** Main theorem: killed anywhere, restarted any number of times, with whatever legacy keys each
      run happens to find, no stored secret ever becomes unreadable or changes its plaintext. */
  lemma {:induction false} SecretsAlwaysSurvive(c: Cipher, payload: Text -> Text, keys: NewKeys, store: Store, runs: seq<Run>)
    requires Ideal(c)
    ensures StoreSurvives(c, keys, store, AfterRuns(c, payload, keys, store, runs))
    decreases |runs|
  {
    if runs != [] {
      var run := runs[0];
      var mid := After(c, payload, keys, store, run);
      TableAfterSurvives(c, store.databases, keys.databases, run.legacyDns, run, DATABASES, false);
      TableAfterSurvives(c, store.dnsProviders, keys.dns, run.legacyDns, run, DNS, true);
      TableAfterSurvives(c, store.vpnServices, keys.vpn, run.legacyVpn, run, SERVICES, true);
      TableAfterSurvives(c, store.vpnUsers, keys.vpn, run.legacyVpn, run, USERS, true);
      TableAfterSurvives(c, store.migrationSources, keys.migration, run.legacyMigration, run, SOURCES, true);
      SecretsAlwaysSurvive(c, payload, keys, mid, runs[1..]);
    }
  }

  /** A finished pass over a table leaves every readable secret under the new key and touches nothing it
      cannot read; running the pass again, however far, rewrites no row. */
  lemma {:induction false} FinishedTable(c: Cipher, table: Option<seq<Cell>>, newKey: Key, legacy: Option<Key>,
                      run: Run, again: Run, phase: nat, skipEmpty: bool)
    requires Ideal(c) && run.phase > phase
    ensures var after := TableAfter(c, table, newKey, legacy, run, phase, skipEmpty);
            && TableAfter(c, after, newKey, legacy, again, phase, skipEmpty) == after
            && (table.Some? ==> forall i | 0 <= i < |table.value| ::
                  && (!Skipped(table.value[i], skipEmpty) && Readable(c, table.value[i], newKey, legacy) ==>
                        Plain(c, newKey, after.value[i]) == TextOf(c, table.value[i], newKey, legacy))
                  && (!Readable(c, table.value[i], newKey, legacy) ==> after.value[i] == table.value[i]))
  {
    if table.Some? {
      var after := TableAfter(c, table, newKey, legacy, run, phase, skipEmpty);
      forall i | 0 <= i < |table.value|
        ensures RekeyCell(c, after.value[i], newKey, legacy, again.nonce(phase, i), skipEmpty) == after.value[i]
        ensures !Skipped(table.value[i], skipEmpty) && Readable(c, table.value[i], newKey, legacy) ==>
                  Plain(c, newKey, after.value[i]) == TextOf(c, table.value[i], newKey, legacy)
        ensures !Readable(c, table.value[i], newKey, legacy) ==> after.value[i] == table.value[i]
      {
        RekeyCellSurvives(c, table.value[i], newKey, legacy, run.nonce(phase, i), skipEmpty);
        RekeyCellSurvives(c, after.value[i], newKey, legacy, again.nonce(phase, i), skipEmpty);
      }
      assert TableAfter(c, after, newKey, legacy, again, phase, skipEmpty).value == after.value;
    }
  }

  ghost predicate SameBlobs(s: Store, t: Store) {
    s.databases == t.databases && s.dnsProviders == t.dnsProviders && s.vpnServices == t.vpnServices
    && s.vpnUsers == t.vpnUsers && s.migrationSources == t.migrationSources
  }

  /** All rows of a table a finished pass could read are under the new key; the others are as they were. */
  ghost predicate Converted(c: Cipher, newKey: Key, legacy: Option<Key>, skipEmpty: bool,
                            before: Option<seq<Cell>>, after: Option<seq<Cell>>) {
    before.Some? ==>
      (after.Some? && |after.value| == |before.value| && forall i | 0 <= i < |before.value| ::
         && (!Skipped(before.value[i], skipEmpty) && Readable(c, before.value[i], newKey, legacy) ==>
               Plain(c, newKey, after.value[i]) == TextOf(c, before.value[i], newKey, legacy))
         && (!Readable(c, before.value[i], newKey, legacy) ==> after.value[i] == before.value[i]))
  }

  /** A finished run converts every table, and a further run that finds the same legacy keys,
      finished or killed, rewrites no blob. */
  lemma {:induction false} FinishedRunIsFinal(c: Cipher, payload: Text -> Text, keys: NewKeys, store: Store, run: Run, again: Run)
    requires Ideal(c) && Finished(run) && run.databasesProbe
    requires again.legacyDns == run.legacyDns && again.legacyVpn == run.legacyVpn
    requires again.legacyMigration == run.legacyMigration
    ensures var after := After(c, payload, keys, store, run);
            && SameBlobs(After(c, payload, keys, after, again), after)
            && Converted(c, keys.databases, run.legacyDns, false, store.databases, after.databases)
            && Converted(c, keys.dns, run.legacyDns, true, store.dnsProviders, after.dnsProviders)
            && Converted(c, keys.vpn, run.legacyVpn, true, store.vpnServices, after.vpnServices)
            && Converted(c, keys.vpn, run.legacyVpn, true, store.vpnUsers, after.vpnUsers)
            && Converted(c, keys.migration, run.legacyMigration, true, store.migrationSources, after.migrationSources)
  {
    FinishedTable(c, store.databases, keys.databases, run.legacyDns, run, again, DATABASES, false);
    FinishedTable(c, store.dnsProviders, keys.dns, run.legacyDns, run, again, DNS, true);
    FinishedTable(c, store.vpnServices, keys.vpn, run.legacyVpn, run, again, SERVICES, true);
    FinishedTable(c, store.vpnUsers, keys.vpn, run.legacyVpn, run, again, USERS, true);
    FinishedTable(c, store.migrationSources, keys.migration, run.legacyMigration, run, again, SOURCES, true);
  }

  // --------------------------------------------------------- finding legacy keys

  /** One readdir entry with the bytes of the file. */
  datatype Entry = Entry(name: string, content: string)
  type Directory = seq<Entry>

  predicate LegacyCopy(fileName: string, e: Entry) {
    fileName + ".legacy." <= e.name && |e.content| == KEY_LEN
  }

  predicate KeyFile(fileName: string, e: Entry) {
    e.name == fileName && |e.content| == KEY_LEN
  }

  function FirstMatch(dir: Directory, wanted: Entry -> bool): Option<Entry> {
    if dir == [] then None else if wanted(dir[0]) then Some(dir[0]) else FirstMatch(dir[1..], wanted)
  }

  /** One directory of findLegacyKey: the file itself, else its first renamed copy in readdir order. */
  function FindIn(dir: Directory, fileName: string): Option<Entry> {
    var exact := FirstMatch(dir, e => KeyFile(fileName, e));
    if exact.Some? then exact else FirstMatch(dir, e => LegacyCopy(fileName, e))
  }

  lemma {:induction false} FirstMatchFinds(dir: Directory, wanted: Entry -> bool)
    ensures FirstMatch(dir, wanted).Some? ==> FirstMatch(dir, wanted).value in dir && wanted(FirstMatch(dir, wanted).value)
    ensures FirstMatch(dir, wanted) == None ==> forall e <- dir :: !wanted(e)
  {
    if dir != [] {
      FirstMatchFinds(dir[1..], wanted);
      assert dir == [dir[0]] + dir[1..];
    }
  }

  /** Where findLegacyKey looks: the decoded environment variable, if it is set, and the candidate
      directories in order, each as readdir lists it. Secrets without key files have no file name. */
  datatype KeySource = KeySource(envKey: Option<Key>, dirs: seq<Directory>, fileName: Option<string>)

  datatype FoundKey = InEnv(key: Key) | InDir(key: Key, dir: nat, name: string)

  function FirstDir(dirs: seq<Directory>, fileName: string, from: nat): Option<FoundKey> {
    if dirs == [] then None
    else match FindIn(dirs[0], fileName)
      case Some(e) => Some(InDir(e.content, from, e.name))
      case None => FirstDir(dirs[1..], fileName, from + 1)
  }

  function FindLegacyKey(s: KeySource): Option<FoundKey> {
    if s.envKey.Some? && |s.envKey.value| == KEY_LEN then Some(InEnv(s.envKey.value))
    else if s.fileName == None then None
    else FirstDir(s.dirs, s.fileName.value, 0)
  }

  function KeyOf(found: Option<FoundKey>): Option<Key> { if found.Some? then Some(found.value.key) else None }

  predicate Candidate(fileName: string, e: Entry) { KeyFile(fileName, e) || LegacyCopy(fileName, e) }

  /** The entries findLegacyKey may use once step 8 is done: a key that was read from its own file has moved
      to a stamped copy, everything else is as it was. */
  predicate AfterRename(dir: Directory, fileName: string, moved: bool, key: Key, stamp: string, e: Entry) {
    (moved && e == Entry(fileName + ".legacy." + stamp, key)) || (e in dir && !(moved && e.name == fileName))
  }

  /** What readdir may list afterwards: those entries in any order, and anything else. */
  ghost predicate Relisted(dir: Directory, fileName: string, moved: bool, key: Key, stamp: string, listing: Directory) {
    forall e | Candidate(fileName, e) :: e in listing <==> AfterRename(dir, fileName, moved, key, stamp, e)
  }

  predicate Moved(found: Option<FoundKey>, fileName: string, dir: nat) {
    found.Some? && found.value.InDir? && found.value.dir == dir && found.value.name == fileName
  }

  /** The sources the next run may meet. */
  ghost predicate NextSource(s: KeySource, stamp: string, next: KeySource) {
    && next.envKey == s.envKey && next.fileName == s.fileName && |next.dirs| == |s.dirs|
    && (s.fileName.Some? ==> forall i | 0 <= i < |s.dirs| ::
          Relisted(s.dirs[i], s.fileName.value, Moved(FindLegacyKey(s), s.fileName.value, i),
                   if FindLegacyKey(s).Some? then FindLegacyKey(s).value.key else "", stamp, next.dirs[i]))
  }

  /** No copy beside the key that was found holds a different one. */
  predicate NoRival(s: KeySource) {
    var found := FindLegacyKey(s);
    found.Some? && found.value.InDir? && s.fileName.Some? && found.value.dir < |s.dirs| ==>
      forall e <- s.dirs[found.value.dir] :: LegacyCopy(s.fileName.value, e) ==> e.content == found.value.key
  }

  lemma {:induction false} FindInFinds(dir: Directory, fileName: string)
    ensures var e := FindIn(dir, fileName);
            && (e == None <==> forall d <- dir :: !Candidate(fileName, d))
            && (e.Some? ==> e.value in dir && Candidate(fileName, e.value))
            && (e.Some? && !KeyFile(fileName, e.value) ==> forall d <- dir :: !KeyFile(fileName, d))
  {
    FirstMatchFinds(dir, e => KeyFile(fileName, e));
    FirstMatchFinds(dir, e => LegacyCopy(fileName, e));
  }

  /** The first directory with a candidate decides. */
  lemma {:induction false} FirstDirFinds(dirs: seq<Directory>, fileName: string, from: nat)
    ensures var found := FirstDir(dirs, fileName, from);
            && (found == None <==> forall i | 0 <= i < |dirs| :: FindIn(dirs[i], fileName) == None)
            && (found.Some? ==>
                  && found.value.InDir? && from <= found.value.dir < from + |dirs|
                  && FindIn(dirs[found.value.dir - from], fileName) == Some(Entry(found.value.name, found.value.key))
                  && forall i | 0 <= i < found.value.dir - from :: FindIn(dirs[i], fileName) == None)
  {
    if dirs != [] {
      FirstDirFinds(dirs[1..], fileName, from + 1);
    }
  }

  lemma {:induction false} RelistedNothing(dir: Directory, fileName: string, stamp: string, key: Key, listing: Directory)
    requires Relisted(dir, fileName, false, key, stamp, listing) && FindIn(dir, fileName) == None
    ensures FindIn(listing, fileName) == None
  {
    FindInFinds(dir, fileName);
    FindInFinds(listing, fileName);
  }

  /** In the directory of the find: without a rival every listing gives the same key. */
  lemma {:induction false} RelistedFind(dir: Directory, fileName: string, e: Entry, stamp: string, listing: Directory)
    requires FindIn(dir, fileName) == Some(e)
    requires Relisted(dir, fileName, e.name == fileName, e.content, stamp, listing)
    requires forall d <- dir :: LegacyCopy(fileName, d) ==> d.content == e.content
    ensures FindIn(listing, fileName).Some? && FindIn(listing, fileName).value.content == e.content
  {
    FindInFinds(dir, fileName);
    FindInFinds(listing, fileName);
    var renamed := Entry(fileName + ".legacy." + stamp, e.content);
    RenamedIsCopy(fileName, stamp, e.content);
    if e.name == fileName {
      assert renamed in listing;
    } else {
      assert e in listing;
    }
  }

  lemma {:induction false} RenamedIsCopy(fileName: string, stamp: string, key: Key)
    requires |key| == KEY_LEN
    ensures LegacyCopy(fileName, Entry(fileName + ".legacy." + stamp, key))
    ensures fileName + ".legacy." + stamp != fileName
  {
    var name := fileName + ".legacy." + stamp;
    assert |name| > |fileName| && fileName + ".legacy." <= name;
  }

  /** In the directory of the find: a rival can come first. */
  lemma {:induction false} RivalFirst(dir: Directory, fileName: string, e: Entry, stamp: string, rival: Entry) returns (listing: Directory)
    requires FindIn(dir, fileName) == Some(e) && rival in dir && LegacyCopy(fileName, rival)
    ensures Relisted(dir, fileName, e.name == fileName, e.content, stamp, listing)
    ensures FindIn(listing, fileName) == Some(rival)
  {
    FindInFinds(dir, fileName);
    RenamedIsCopy(fileName, stamp, e.content);
    var renamed := Entry(fileName + ".legacy." + stamp, e.content);
    assert rival.name != fileName by { assert |rival.name| > |fileName|; }
    var keep := (d: Entry) => d.name != fileName;
    FilterMembers(dir, keep);
    listing := [rival] + (if e.name == fileName then [renamed] else []) + Filter(dir, keep);
    FirstMatchFinds(listing, d => KeyFile(fileName, d));
    assert FirstMatch(listing, d => LegacyCopy(fileName, d)) == Some(rival);
    forall d | Candidate(fileName, d)
      ensures d in listing <==> AfterRename(dir, fileName, e.name == fileName, e.content, stamp, d)
    {
      if d.name == fileName && d in dir { assert KeyFile(fileName, d); }
    }
  }

  /** Where a key comes from: a 32-byte environment key wins; then the first directory that has the key file or
      a renamed copy of 32 bytes decides, and in it the key file itself comes before any copy. */
  lemma {:induction false} KeySearchOrder(s: KeySource)
    ensures var found := FindLegacyKey(s);
            if s.envKey.Some? && |s.envKey.value| == 32 then found == Some(InEnv(s.envKey.value))
            else if s.fileName == None then found == None
            else
              var file := s.fileName.value;
              && (found == None <==> forall i, e | 0 <= i < |s.dirs| && e in s.dirs[i] && |e.content| == 32 ::
                                       e.name != file && !(file + ".legacy." <= e.name))
              && (found.Some? ==>
                    && found.value.InDir? && found.value.dir < |s.dirs| && |found.value.key| == 32
                    && Entry(found.value.name, found.value.key) in s.dirs[found.value.dir]
                    && (forall i, e | 0 <= i < found.value.dir && e in s.dirs[i] && |e.content| == 32 ::
                          e.name != file && !(file + ".legacy." <= e.name))
                    && (found.value.name == file || (file + ".legacy." <= found.value.name
                          && forall e <- s.dirs[found.value.dir] :: |e.content| == 32 ==> e.name != file)))
  {
    if s.fileName.Some? {
      FirstDirFinds(s.dirs, s.fileName.value, 0);
      forall i | 0 <= i < |s.dirs|
        ensures FindIn(s.dirs[i], s.fileName.value) == None <==>
                  forall e <- s.dirs[i] :: |e.content| == 32 ==> e.name != s.fileName.value && !(s.fileName.value + ".legacy." <= e.name)
      {
        FindInFinds(s.dirs[i], s.fileName.value);
      }
      var found := FindLegacyKey(s);
      if found.Some? && found.value.InDir? { FindInFinds(s.dirs[found.value.dir], s.fileName.value); }
    }
  }

  /** The next run finds the same key, whatever order readdir uses, exactly when the key came from the
      environment or no copy in its directory holds a different one; and nothing stays nothing. */
  lemma {:induction false} RenamedKeyIsFoundAgain(s: KeySource, stamp: string)
    ensures (forall next | NextSource(s, stamp, next) :: KeyOf(FindLegacyKey(next)) == KeyOf(FindLegacyKey(s))) <==> NoRival(s)
  {
    if NoRival(s) {
      forall next | NextSource(s, stamp, next) ensures KeyOf(FindLegacyKey(next)) == KeyOf(FindLegacyKey(s)) {
        NextRunAgrees(s, stamp, next);
      }
    } else {
      var next := NextRunDiffers(s, stamp);
    }
  }

  lemma {:induction false} NextRunAgrees(s: KeySource, stamp: string, next: KeySource)
    requires NextSource(s, stamp, next) && NoRival(s)
    ensures KeyOf(FindLegacyKey(next)) == KeyOf(FindLegacyKey(s))
  {
    if s.fileName.Some? {
      var fileName, found := s.fileName.value, FindLegacyKey(s);
      FirstDirFinds(s.dirs, fileName, 0);
      FirstDirFinds(next.dirs, fileName, 0);
      if found.Some? && found.value.InDir? {
        var i := found.value.dir;
        RelistedFind(s.dirs[i], fileName, Entry(found.value.name, found.value.key), stamp, next.dirs[i]);
        forall j | 0 <= j < i ensures FindIn(next.dirs[j], fileName) == None {
          RelistedNothing(s.dirs[j], fileName, stamp, found.value.key, next.dirs[j]);
        }
      } else if found == None {
        forall j | 0 <= j < |s.dirs| ensures FindIn(next.dirs[j], fileName) == None {
          RelistedNothing(s.dirs[j], fileName, stamp, "", next.dirs[j]);
        }
      }
    }
  }

  lemma {:induction false} NextRunDiffers(s: KeySource, stamp: string) returns (next: KeySource)
    requires !NoRival(s)
    ensures NextSource(s, stamp, next) && KeyOf(FindLegacyKey(next)) != KeyOf(FindLegacyKey(s))
  {
    var fileName, found := s.fileName.value, FindLegacyKey(s).value;
    FirstDirFinds(s.dirs, fileName, 0);
    var rival :| rival in s.dirs[found.dir] && LegacyCopy(fileName, rival) && rival.content != found.key;
    var listing := RivalFirst(s.dirs[found.dir], fileName, Entry(found.name, found.key), stamp, rival);
    next := s.(dirs := s.dirs[found.dir := listing]);
    FirstDirFinds(next.dirs, fileName, 0);
  }

  /** A finished run, its renames and any later run together: if no found key has a rival copy, the later
      run rewrites no blob, wherever it is killed. */
  lemma {:induction false} FinishedRunStaysFinal(c: Cipher, payload: Text -> Text, keys: NewKeys, store: Store, run: Run, again: Run,
                                                 dns: KeySource, vpn: KeySource, migration: KeySource, stamp: string,
                                                 dns': KeySource, vpn': KeySource, migration': KeySource)
    requires Ideal(c) && Finished(run) && run.databasesProbe
    requires run.legacyDns == KeyOf(FindLegacyKey(dns)) && again.legacyDns == KeyOf(FindLegacyKey(dns'))
    requires run.legacyVpn == KeyOf(FindLegacyKey(vpn)) && again.legacyVpn == KeyOf(FindLegacyKey(vpn'))
    requires run.legacyMigration == KeyOf(FindLegacyKey(migration)) && again.legacyMigration == KeyOf(FindLegacyKey(migration'))
    requires NextSource(dns, stamp, dns') && NextSource(vpn, stamp, vpn') && NextSource(migration, stamp, migration')
    requires NoRival(dns) && NoRival(vpn) && NoRival(migration)
    ensures var after := After(c, payload, keys, store, run); SameBlobs(After(c, payload, keys, after, again), after)
  {
    NextRunAgrees(dns, stamp, dns');
    NextRunAgrees(vpn, stamp, vpn');
    NextRunAgrees(migration, stamp, migration');
    FinishedRunIsFinal(c, payload, keys, store, run, again);
  }

  // ---------------------------------------------------- plain-password theorems

  /** The password is safe: still in its plain column, or sealed under the ssh key. */
  predicate SshSafe(c: Cipher, payload: Text -> Text, keys: NewKeys, store: Store, i: nat, password: Text)
    requires i < |store.sites|
  {
    || (store.sshColumn && store.sites[i].ssh == Some(password)
        && (store.sites[i].sshEnc == None || store.sites[i].sshEnc == Some("")))
    || (store.sites[i].ssh == None && store.sites[i].sshEnc.Some? && store.sites[i].sshEnc.value != ""
        && DecGcm(c, keys.ssh, store.sites[i].sshEnc.value) == Some(payload(password)))
  }

  predicate CmsSafe(c: Cipher, payload: Text -> Text, keys: NewKeys, store: Store, i: nat, password: Text)
    requires i < |store.sites|
  {
    || (store.cmsColumn && store.sites[i].cms == Some(password)
        && (store.sites[i].cmsEnc == None || store.sites[i].cmsEnc == Some("")))
    || (store.sites[i].cms == None && store.sites[i].cmsEnc.Some? && store.sites[i].cmsEnc.value != ""
        && DecGcm(c, keys.cms, store.sites[i].cmsEnc.value) == Some(payload(password)))
  }

  /** JSON text is never empty, and the empty string decodes to no bytes. */
  ghost predicate Sane(c: Cipher, payload: Text -> Text) {
    Ideal(c) && c.size("") == 0 && forall p :: payload(p) != ""
  }

  lemma {:induction false} SealedPasswordReads(c: Cipher, payload: Text -> Text, key: Key, nonce: string, password: Text)
    requires Sane(c, payload)
    ensures DecGcm(c, key, c.seal(key, nonce, payload(password))) == Some(payload(password))
    ensures c.seal(key, nonce, payload(password)) != ""
  {
    SealedReadsBack(c, key, nonce, payload(password));
  }

  /** One run keeps a plain password safe exactly when it does not reach the column drop behind a
      swallowed probe: with the probe swallowed, a finished run destroys the only copy. */
  lemma {:induction false} SshPasswordFate(c: Cipher, payload: Text -> Text, keys: NewKeys, store: Store, run: Run, i: nat, password: Text)
    requires Sane(c, payload) && i < |store.sites|
    requires SshSafe(c, payload, keys, store, i, password) && store.sites[i].ssh.Some?
    ensures SshSafe(c, payload, keys, After(c, payload, keys, store, run), i, password)
            <==> run.sshProbe || run.phase <= DROP_SSH
  {
    SealedPasswordReads(c, payload, keys.ssh, run.nonce(SSH, i), password);
  }

  lemma {:induction false} CmsPasswordFate(c: Cipher, payload: Text -> Text, keys: NewKeys, store: Store, run: Run, i: nat, password: Text)
    requires Sane(c, payload) && i < |store.sites|
    requires CmsSafe(c, payload, keys, store, i, password) && store.sites[i].cms.Some?
    ensures CmsSafe(c, payload, keys, After(c, payload, keys, store, run), i, password)
            <==> run.cmsProbe || run.phase <= DROP_CMS
  {
    SealedPasswordReads(c, payload, keys.cms, run.nonce(CMS, i), password);
  }

  lemma {:induction false} SealedPasswordStays(c: Cipher, payload: Text -> Text, keys: NewKeys, store: Store, run: Run, i: nat, password: Text)
    requires i < |store.sites|
    ensures SshSafe(c, payload, keys, store, i, password) && store.sites[i].ssh == None ==>
              SshSafe(c, payload, keys, After(c, payload, keys, store, run), i, password)
    ensures CmsSafe(c, payload, keys, store, i, password) && store.sites[i].cms == None ==>
              CmsSafe(c, payload, keys, After(c, payload, keys, store, run), i, password)
  {
  }

  /** As long as the probes answer, no sequence of killed and restarted runs loses a plain password. */
  lemma {:induction false} PasswordsNeverLost(c: Cipher, payload: Text -> Text, keys: NewKeys, store: Store, runs: seq<Run>, i: nat, password: Text)
    requires Sane(c, payload) && i < |store.sites|
    requires forall run <- runs :: run.sshProbe && run.cmsProbe
    ensures i < |AfterRuns(c, payload, keys, store, runs).sites|
    ensures SshSafe(c, payload, keys, store, i, password) ==>
              SshSafe(c, payload, keys, AfterRuns(c, payload, keys, store, runs), i, password)
    ensures CmsSafe(c, payload, keys, store, i, password) ==>
              CmsSafe(c, payload, keys, AfterRuns(c, payload, keys, store, runs), i, password)
    decreases |runs|
  {
    if runs != [] {
      if SshSafe(c, payload, keys, store, i, password) && store.sites[i].ssh.Some? {
        SshPasswordFate(c, payload, keys, store, runs[0], i, password);
      }
      if CmsSafe(c, payload, keys, store, i, password) && store.sites[i].cms.Some? {
        CmsPasswordFate(c, payload, keys, store, runs[0], i, password);
      }
      SealedPasswordStays(c, payload, keys, store, runs[0], i, password);
      PasswordsNeverLost(c, payload, keys, After(c, payload, keys, store, runs[0]), runs[1..], i, password);
    }
  }

  /** What no run changes in a site's row: its id, and a ciphertext that is already there. */
  predicate RowKept(before: Site, after: Site) {
    && after.id == before.id
    && (before.sshEnc.Some? && before.sshEnc.value != "" ==> after.sshEnc == before.sshEnc)
    && (before.cmsEnc.Some? && before.cmsEnc.value != "" ==> after.cmsEnc == before.cmsEnc)
    && (after.ssh == before.ssh || after.ssh == None) && (after.cms == before.cms || after.cms == None)
  }

  lemma {:induction false} OneRunKeeps(c: Cipher, payload: Text -> Text, keys: NewKeys, store: Store, run: Run, i: nat)
    requires i < |store.sites|
    ensures |After(c, payload, keys, store, run).sites| == |store.sites|
    ensures RowKept(store.sites[i], After(c, payload, keys, store, run).sites[i])
  {
  }

  /** Over any number of killed runs, whatever the probes answer and whatever stands in the plain columns. */
  lemma {:induction false} CiphertextsStay(c: Cipher, payload: Text -> Text, keys: NewKeys, store: Store, runs: seq<Run>, i: nat)
    requires i < |store.sites|
    ensures |AfterRuns(c, payload, keys, store, runs).sites| == |store.sites|
    ensures RowKept(store.sites[i], AfterRuns(c, payload, keys, store, runs).sites[i])
    decreases |runs|
  {
    if runs != [] {
      OneRunKeeps(c, payload, keys, store, runs[0], i);
      CiphertextsStay(c, payload, keys, After(c, payload, keys, store, runs[0]), runs[1..], i);
    }
  }

  lemma {:induction false} SealedRow(c: Cipher, payload: Text -> Text, keys: NewKeys, store: Store, run: Run, i: nat)
    requires i < |store.sites|
    requires store.sites[i].ssh.Some? ==> c.seal(keys.ssh, run.nonce(SSH, i), payload(store.sites[i].ssh.value)) != ""
    requires store.sites[i].cms.Some? ==> c.seal(keys.cms, run.nonce(CMS, i), payload(store.sites[i].cms.value)) != ""
    ensures var before, after := store.sites[i], After(c, payload, keys, store, run).sites[i];
            && (run.sshProbe && before.ssh.Some? && after.ssh == None ==> after.sshEnc.Some? && after.sshEnc.value != "")
            && (run.cmsProbe && before.cms.Some? && after.cms == None ==> after.cmsEnc.Some? && after.cmsEnc.value != "")
            && (before.ssh == None ==> after.sshEnc == before.sshEnc) && (before.cms == None ==> after.cmsEnc == before.cmsEnc)
  {
  }

  /** While the probes answer, a plain password disappears only from a row that then has a ciphertext, and a
      row without a plain password keeps what it has. */
  lemma {:induction false} PlainGoesBehindCiphertext(c: Cipher, payload: Text -> Text, keys: NewKeys, store: Store, run: Run, i: nat)
    requires Sane(c, payload) && i < |store.sites|
    ensures var before, after := store.sites[i], After(c, payload, keys, store, run).sites[i];
            && (run.sshProbe && before.ssh.Some? && after.ssh == None ==> after.sshEnc.Some? && after.sshEnc.value != "")
            && (run.cmsProbe && before.cms.Some? && after.cms == None ==> after.cmsEnc.Some? && after.cmsEnc.value != "")
            && (before.ssh == None ==> after.sshEnc == before.sshEnc) && (before.cms == None ==> after.cmsEnc == before.cmsEnc)
  {
    if store.sites[i].ssh.Some? { SealedPasswordReads(c, payload, keys.ssh, run.nonce(SSH, i), store.sites[i].ssh.value); }
    if store.sites[i].cms.Some? { SealedPasswordReads(c, payload, keys.cms, run.nonce(CMS, i), store.sites[i].cms.value); }
    SealedRow(c, payload, keys, store, run, i);
  }

  /** Which plain passwords a run that dies in the password loops has cleared: those of the rows before the kill,
      whether or not they had a ciphertext. */
  lemma {:induction false} ClearedUpToTheKill(c: Cipher, payload: Text -> Text, keys: NewKeys, store: Store, run: Run, i: nat)
    requires i < |store.sites| && run.phase <= 1
    ensures var before, after := store.sites[i], After(c, payload, keys, store, run).sites[i];
            && after.ssh == (if run.sshProbe && store.sshColumn && (run.phase == 1 || i < run.row) then None else before.ssh)
            && after.cms == (if run.cmsProbe && store.cmsColumn && run.phase == 1 && i < run.row then None else before.cms)
  {
  }

  /** A finished run removes both plain columns, so a safe password is then a sealed one. */
  lemma {:induction false} FinishedDropsPlainText(c: Cipher, payload: Text -> Text, keys: NewKeys, store: Store, run: Run, i: nat)
    requires Finished(run) && i < |store.sites|
    ensures var after := After(c, payload, keys, store, run);
            && !after.sshColumn && !after.cmsColumn
            && (store.sshColumn ==> after.sites[i].ssh == None) && (store.cmsColumn ==> after.sites[i].cms == None)
  {
  }

  // ---------------------------------------------------------------- the migration

  class RekeyMigration {
    const c: Cipher
    const payload: Text -> Text
    const keys: NewKeys
    var sites: seq<Site>
    var sshColumn: bool
    var cmsColumn: bool
    var databases: Option<seq<Cell>>
    var dnsProviders: Option<seq<Cell>>
    var vpnServices: Option<seq<Cell>>
    var vpnUsers: Option<seq<Cell>>
    var migrationSources: Option<seq<Cell>>

    function Current(): Store
      reads this
    {
      Store(sites, sshColumn, cmsColumn, databases, dnsProviders, vpnServices, vpnUsers, migrationSources)
    }

    constructor (c: Cipher, payload: Text -> Text, keys: NewKeys, store: Store)
      ensures this.c == c && this.payload == payload && this.keys == keys && Current() == store
    {
      this.c, this.payload, this.keys := c, payload, keys;
      sites, sshColumn, cmsColumn := store.sites, store.sshColumn, store.cmsColumn;
      databases, dnsProviders, vpnServices := store.databases, store.dnsProviders, store.vpnServices;
      vpnUsers, migrationSources := store.vpnUsers, store.migrationSources;
    }

    /** Steps 2 and 3 of `up`, one row at a time. */
    method SealSshPasswords(run: Run) returns (alive: bool)
      requires run.sshProbe && sshColumn
      modifies this`sites
      ensures |sites| == |old(sites)|
      ensures forall i | 0 <= i < |sites| :: sites[i] ==
                if i < Reached(run, SSH, |sites|) then SshRow(c, payload, old(sites)[i], keys.ssh, run.nonce(SSH, i))
                else old(sites)[i]
      ensures alive <==> run.phase > SSH
    {
      var i := 0;
      while i < |sites|
        invariant i <= |sites| == |old(sites)|
        invariant i <= Reached(run, SSH, |sites|)
        invariant forall j | 0 <= j < |sites| :: sites[j] ==
                    if j < i then SshRow(c, payload, old(sites)[j], keys.ssh, run.nonce(SSH, j)) else old(sites)[j]
      {
        if run.phase == SSH && i >= run.row { return false; }
        var row := sites[i];
        if row.ssh.Some? {
          if row.sshEnc.Some? && row.sshEnc.value != "" {
            sites := sites[i := row.(ssh := None)];
          } else {
            var enc := c.seal(keys.ssh, run.nonce(SSH, i), payload(row.ssh.value));
            sites := sites[i := row.(sshEnc := Some(enc), ssh := None)];
          }
        }
        i := i + 1;
      }
      alive := run.phase > SSH;
    }

    method SealCmsPasswords(run: Run) returns (alive: bool)
      requires run.cmsProbe && cmsColumn && run.phase > SSH
      modifies this`sites
      ensures |sites| == |old(sites)|
      ensures forall i | 0 <= i < |sites| :: sites[i] ==
                if i < Reached(run, CMS, |sites|) then CmsRow(c, payload, old(sites)[i], keys.cms, run.nonce(CMS, i))
                else old(sites)[i]
      ensures alive <==> run.phase > CMS
    {
      var i := 0;
      while i < |sites|
        invariant i <= |sites| == |old(sites)|
        invariant i <= Reached(run, CMS, |sites|)
        invariant forall j | 0 <= j < |sites| :: sites[j] ==
                    if j < i then CmsRow(c, payload, old(sites)[j], keys.cms, run.nonce(CMS, j)) else old(sites)[j]
      {
        if run.phase == CMS && i >= run.row { return false; }
        var row := sites[i];
        if row.cms.Some? {
          if row.cmsEnc.Some? && row.cmsEnc.value != "" {
            sites := sites[i := row.(cms := None)];
          } else {
            var enc := c.seal(keys.cms, run.nonce(CMS, i), payload(row.cms.value));
            sites := sites[i := row.(cmsEnc := Some(enc), cms := None)];
          }
        }
        i := i + 1;
      }
      alive := run.phase > CMS;
    }

    /** rekeyTable: select the rows, decrypt and re-encrypt them one by one. */
    method RekeyTable(table: Option<seq<Cell>>, newKey: Key, legacy: Option<Key>, run: Run, phase: nat, skipEmpty: bool)
      returns (after: Option<seq<Cell>>, alive: bool)
      requires run.phase >= phase
      ensures after == TableAfter(c, table, newKey, legacy, run, phase, skipEmpty)
      ensures alive <==> run.phase > phase
    {
      alive := run.phase > phase;
      if table == None { return None, alive; }
      var rows := table.value;
      var i := 0;
      while i < |rows|
        invariant i <= |rows| == |table.value|
        invariant i <= Reached(run, phase, |rows|)
        invariant forall j: nat | j < |rows| :: rows[j] ==
                    if j < i then RekeyCell(c, table.value[j], newKey, legacy, run.nonce(phase, j), skipEmpty) else table.value[j]
      {
        if run.phase == phase && i >= run.row {
          assert rows == TableAfter(c, table, newKey, legacy, run, phase, skipEmpty).value;
          return Some(rows), false;
        }
        var row := rows[i];
        if row.blob.Some? && !(skipEmpty && (row.id == "" || row.blob.value == "")) {
          if DecGcm(c, newKey, row.blob.value) == None && legacy.Some? {
            var plain := DecGcm(c, legacy.value, row.blob.value);
            if plain.Some? {
              rows := rows[i := row.(blob := Some(c.seal(newKey, run.nonce(phase, i), plain.value)))];
            }
          }
        }
        i := i + 1;
      }
      assert rows == TableAfter(c, table, newKey, legacy, run, phase, skipEmpty).value;
      after := Some(rows);
    }

    method SealPasswords(run: Run) returns (alive: bool)
      modifies this`sites
      ensures |sites| == |old(sites)|
      ensures forall i | 0 <= i < |sites| :: sites[i] == SiteSealed(c, payload, keys, old(Current()), run, i)
      ensures alive <==> run.phase > CMS
    {
      alive := run.phase > SSH;
      if run.sshProbe && sshColumn { alive := SealSshPasswords(run); }
      if !alive { return false; }
      alive := run.phase > CMS;
      if run.cmsProbe && cmsColumn { alive := SealCmsPasswords(run); }
    }

    /** Steps 4 to 7 of `up`. */
    method RekeyTables(run: Run) returns (alive: bool)
      requires run.phase > CMS
      modifies this`databases, this`dnsProviders, this`vpnServices, this`vpnUsers, this`migrationSources
      ensures databases == if run.databasesProbe
                           then TableAfter(c, old(databases), keys.databases, run.legacyDns, run, DATABASES, false)
                           else old(databases)
      ensures dnsProviders == TableAfter(c, old(dnsProviders), keys.dns, run.legacyDns, run, DNS, true)
      ensures vpnServices == TableAfter(c, old(vpnServices), keys.vpn, run.legacyVpn, run, SERVICES, true)
      ensures vpnUsers == TableAfter(c, old(vpnUsers), keys.vpn, run.legacyVpn, run, USERS, true)
      ensures migrationSources == TableAfter(c, old(migrationSources), keys.migration, run.legacyMigration, run, SOURCES, true)
      ensures alive <==> run.phase > SOURCES
    {
      Untouched(Current(), run);
      alive := run.phase > DATABASES;
      if run.databasesProbe {
        databases, alive := RekeyTable(databases, keys.databases, run.legacyDns, run, DATABASES, false);
      }
      if !alive { return; }
      dnsProviders, alive := RekeyTable(dnsProviders, keys.dns, run.legacyDns, run, DNS, true);
      if !alive { return; }
      vpnServices, alive := RekeyTable(vpnServices, keys.vpn, run.legacyVpn, run, SERVICES, true);
      if !alive { return; }
      vpnUsers, alive := RekeyTable(vpnUsers, keys.vpn, run.legacyVpn, run, USERS, true);
      if !alive { return; }
      migrationSources, alive := RekeyTable(migrationSources, keys.migration, run.legacyMigration, run, SOURCES, true);
    }

    /** Step 9 of `up`. */
    method DropPlainColumns(run: Run)
      modifies this`sites, this`sshColumn, this`cmsColumn
      ensures |sites| == |old(sites)|
      ensures forall i | 0 <= i < |sites| ::
                var s3 := if old(sshColumn) && run.phase > DROP_SSH then old(sites)[i].(ssh := None) else old(sites)[i];
                sites[i] == if old(cmsColumn) && run.phase > DROP_CMS then s3.(cms := None) else s3
      ensures sshColumn == (old(sshColumn) && run.phase <= DROP_SSH)
      ensures cmsColumn == (old(cmsColumn) && run.phase <= DROP_CMS)
    {
      if run.phase <= DROP_SSH { return; }
      if sshColumn {
        sites := Map(sites, (s: Site) => s.(ssh := None));
        sshColumn := false;
      }
      if run.phase <= DROP_CMS { return; }
      if cmsColumn {
        sites := Map(sites, (s: Site) => s.(cms := None));
        cmsColumn := false;
      }
    }

    /** `up`: every write of one run, in order, up to the kill. */
    method Up(run: Run)
      modifies this
      ensures Current() == After(c, payload, keys, old(Current()), run)
    {
      var alive := SealPasswords(run);
      if alive {
        alive := RekeyTables(run);
        if alive { DropPlainColumns(run); }
      } else {
        Untouched(Current(), run);
      }
    }

    /** Phases behind the kill leave their tables alone. */
    lemma {:induction false} Untouched(store: Store, run: Run)
      ensures run.phase < DATABASES ==> TableAfter(c, store.databases, keys.databases, run.legacyDns, run, DATABASES, false) == store.databases
      ensures run.phase < DNS ==> TableAfter(c, store.dnsProviders, keys.dns, run.legacyDns, run, DNS, true) == store.dnsProviders
      ensures run.phase < SERVICES ==> TableAfter(c, store.vpnServices, keys.vpn, run.legacyVpn, run, SERVICES, true) == store.vpnServices
      ensures run.phase < USERS ==> TableAfter(c, store.vpnUsers, keys.vpn, run.legacyVpn, run, USERS, true) == store.vpnUsers
      ensures run.phase < SOURCES ==> TableAfter(c, store.migrationSources, keys.migration, run.legacyMigration, run, SOURCES, true) == store.migrationSources
    {
      UntouchedTable(store.databases, keys.databases, run.legacyDns, run, DATABASES, false);
      UntouchedTable(store.dnsProviders, keys.dns, run.legacyDns, run, DNS, true);
      UntouchedTable(store.vpnServices, keys.vpn, run.legacyVpn, run, SERVICES, true);
      UntouchedTable(store.vpnUsers, keys.vpn, run.legacyVpn, run, USERS, true);
      UntouchedTable(store.migrationSources, keys.migration, run.legacyMigration, run, SOURCES, true);
    }

    lemma {:induction false} UntouchedTable(table: Option<seq<Cell>>, newKey: Key, legacy: Option<Key>, run: Run, phase: nat, skipEmpty: bool)
      ensures run.phase < phase ==> TableAfter(c, table, newKey, legacy, run, phase, skipEmpty) == table
    {
      if table.Some? && run.phase < phase {
        assert TableAfter(c, table, newKey, legacy, run, phase, skipEmpty).value == table.value;
      }
    }
  }
}
