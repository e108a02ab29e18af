/** Runtime keys and the PHP-FPM socket paths derived from them (migrations/release/validation.ts:47-66). */
module RuntimeKeys {
  import opened Common
  import opened LegacyPaths
  import LegacyPool

  predicate KeyTail(c: char) {
    'a' <= c <= 'z' || '0' <= c <= '9' || c == '.' || c == '_' || c == '-'
  }

  predicate IsSafeRuntimeKey(key: string) {
    1 <= |key| <= 64 && 'a' <= key[0] <= 'z' && forall c <- key :: KeyTail(c)
  }

  /** The hash is a parameter; slice(0, 20) takes what there is. */
  function DeriveSecondaryRuntimeKey(hashHex: string -> string, domainId: string): string {
    var hex := hashHex(domainId);
    "d" + if |hex| <= 20 then hex else hex[..20]
  }

  predicate Digits(s: string) {
    s != "" && forall c <- s :: '0' <= c <= '9'
  }

  /** /^\d+\.\d+$/ */
  predicate IsPhpVersion(version: string) {
    exists i | 0 <= i < |version| :: version[i] == '.' && Digits(version[..i]) && Digits(version[i + 1..])
  }

  function SocketName(key: string, version: string): string {
    "php" + version + "-fpm-" + key + ".sock"
  }

  /** path.posix.join(directory, name) for an absolute directory and a plain file name. */
  function SocketPath(directory: string, name: string): string {
    "/" + Join(Resolve(directory) + [name])
  }

  predicate SocketPathWithinLimit(key: string, directory: string, maxBytes: nat, version: string) {
    IsPhpVersion(version) && LegacyPool.Utf8Bytes(SocketPath(directory, SocketName(key, version))) <= maxBytes
  }

  /** Bytes a directory takes in front of the file name, final slash included. */
  function DirectoryBytes(directory: string): nat {
    LegacyPool.Utf8Bytes(SocketPath(directory, ""))
  }

  lemma {:induction false} BytesAppend(a: string, b: string)
    ensures LegacyPool.Utf8Bytes(a + b) == LegacyPool.Utf8Bytes(a) + LegacyPool.Utf8Bytes(b)
  {
    if a == "" {
      assert a + b == b;
    } else {
      assert (a + b)[1..] == a[1..] + b;
      BytesAppend(a[1..], b);
    }
  }

  lemma {:induction false} JoinLast(parts: seq<string>, last: string)
    ensures Join(parts + [last]) == Join(parts + [""]) + last
  {
    if parts == [] {
      assert parts + [last] == [last] && parts + [""] == [""];
    } else {
      assert (parts + [last])[1..] == parts[1..] + [last];
      assert (parts + [""])[1..] == parts[1..] + [""];
      JoinLast(parts[1..], last);
      assert parts[0] + "/" + (Join(parts[1..] + [""]) + last) == parts[0] + "/" + Join(parts[1..] + [""]) + last;
    }
  }

  lemma {:induction false} SocketBytes(directory: string, name: string)
    ensures LegacyPool.Utf8Bytes(SocketPath(directory, name)) == DirectoryBytes(directory) + LegacyPool.Utf8Bytes(name)
  {
    JoinLast(Resolve(directory), name);
    assert SocketPath(directory, name) == SocketPath(directory, "") + name;
    BytesAppend(SocketPath(directory, ""), name);
  }

  /** A check with a shorter directory and no smaller limit accepts whatever the stricter check accepts. */
  lemma {:induction false} LooserSocketCheck(key: string, version: string, strict: string, strictMax: nat, loose: string, looseMax: nat)
    requires DirectoryBytes(loose) <= DirectoryBytes(strict) && strictMax <= looseMax
    requires SocketPathWithinLimit(key, strict, strictMax, version)
    ensures SocketPathWithinLimit(key, loose, looseMax, version)
  {
    SocketBytes(strict, SocketName(key, version));
    SocketBytes(loose, SocketName(key, version));
  }

  const MAPPER_DIRECTORY := "/var/run/php"
  const CHECKER_DIRECTORY := "/run/php"
  const SOCKET_MAX: nat := 107

  /** Every further directory level costs its name and a slash. */
  lemma {:induction false} DeeperDirectory(p: string, segments: seq<string>)
    requires segments != [] && Segment(p) && forall q <- segments :: Segment(q)
    ensures DirectoryBytes("/" + Join([p] + segments)) == DirectoryBytes("/" + Join(segments)) + LegacyPool.Utf8Bytes(p) + 1
  {
    ResolveSegments(segments);
    ResolveSegments([p] + segments);
    var inner := Join(segments + [""]);
    assert ([p] + segments) + [""] == [p] + (segments + [""]);
    assert ([p] + (segments + [""]))[1..] == segments + [""];
    assert "/" + (p + "/" + inner) == "/" + p + ("/" + inner);
    BytesAppend("/" + p, "/" + inner);
    BytesAppend("/", p);
    assert LegacyPool.Utf8Bytes("/") == 1;
  }

  lemma {:induction false} DirectoryNames()
    ensures CHECKER_DIRECTORY == "/" + Join(["run", "php"])
    ensures MAPPER_DIRECTORY == "/" + Join(["var", "run", "php"])
  {
    assert Join(["run", "php"]) == "run/php";
    assert Join(["var", "run", "php"]) == "var/" + Join(["run", "php"]);
  }

  /** The checker's default directory is the looser one. */
  lemma {:induction false} DefaultDirectories()
    ensures DirectoryBytes(CHECKER_DIRECTORY) < DirectoryBytes(MAPPER_DIRECTORY)
  {
    DirectoryNames();
    DeeperDirectory("var", ["run", "php"]);
    assert ["var"] + ["run", "php"] == ["var", "run", "php"];
  }

  lemma {:induction false} ResolveSegments(segments: seq<string>)
    requires segments != [] && forall p <- segments :: Segment(p)
    ensures Resolve("/" + Join(segments)) == segments
  {
    SplitJoin(segments);
    SplitPrefix("", Join(segments));
    assert "" + "/" + Join(segments) == "/" + Join(segments);
    assert Walk([], [""] + segments) == Walk([], segments) by { assert ([""] + segments)[1..] == segments; }
    WalkDown([], segments);
  }

  lemma {:induction false} PhpVersionIsNotBlank(version: string)
    requires IsPhpVersion(version)
    ensures exists c <- version :: c != ' '
  {
    var i :| 0 <= i < |version| && version[i] == '.' && Digits(version[..i]) && Digits(version[i + 1..]);
    assert version[i] in version;
  }
}
