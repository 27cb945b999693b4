/**
  The names of cached values, leases and version counters (src/system/application-cache.js:49-66, 103-107, 142).
  SHA-256 is a parameter: any function to text that does not collide on the two requests compared.
 */
module CacheKeys {
  import opened Options
  import opened Texts
  import opened StableJson

  predicate IsNameChar(c: char) {
    'a' <= c <= 'z' || IsDigit(c) || c == ':' || c == '_' || c == '-'
  }

  predicate IsNamespace(s: string) {
    && 1 <= |s| <= 80 && ('a' <= s[0] <= 'z' || IsDigit(s[0]))
    && forall i | 0 <= i < |s| :: IsNameChar(s[i])
  }

  /** The normalised namespace, or None where the source throws. */
  function NormalizeNamespace(raw: string): Option<string> {
    var name := Lower(Trim(raw));
    if IsNamespace(name) then Some(name) else None
  }

  function StripColons(prefix: string): string {
    if prefix != "" && prefix[|prefix| - 1] == ':' then StripColons(prefix[..|prefix| - 1]) else prefix
  }

  predicate IsHexDigest(s: string) {
    |s| == 64 && forall i | 0 <= i < |s| :: IsDigit(s[i]) || 'a' <= s[i] <= 'f'
  }

  function DataKey(prefix: string, name: string, version: nat, digest: string): string {
    StripColons(prefix) + ":" + name + ":v" + Dec(version) + ":" + digest
  }

  function BuildCacheKey(sha: Text -> string, prefix: string, namespace: string, version: nat,
                         parts: Json): Option<string> {
    var name := NormalizeNamespace(namespace);
    if name.None? then None else Some(DataKey(prefix, name.value, version, sha(Serialize(parts))))
  }

  function LockKey(key: string): string {
    key + ":lock"
  }

  function VersionKey(prefix: string, name: string): string {
    StripColons(prefix) + ":" + name + ":version"
  }

  lemma DataKeyParts(prefix: string, n1: string, v1: nat, d1: string, n2: string, v2: nat, d2: string)
    requires IsHexDigest(d1) && IsHexDigest(d2)
    requires DataKey(prefix, n1, v1, d1) == DataKey(prefix, n2, v2, d2)
    ensures n1 == n2 && v1 == v2 && d1 == d2
  {
    var p := StripColons(prefix) + ":";
    var a1, a2 := p + n1, p + n2;
    assert DataKey(prefix, n1, v1, d1) == (a1 + ":" + ("v" + Dec(v1))) + ":" + d1;
    assert DataKey(prefix, n2, v2, d2) == (a2 + ":" + ("v" + Dec(v2))) + ":" + d2;
    SplitAtLastColon(a1 + ":" + ("v" + Dec(v1)), d1, a2 + ":" + ("v" + Dec(v2)), d2);
    SplitAtLastColon(a1, "v" + Dec(v1), a2, "v" + Dec(v2));
    assert Dec(v1) == ("v" + Dec(v1))[1..] && Dec(v2) == ("v" + Dec(v2))[1..];
    DecInjective(v1, v2);
    assert n1 == a1[|p|..] && n2 == a2[|p|..];
  }

  /**
    Under one prefix, two requests share a cache entry exactly when they name the same namespace, saw the
    same version and ask for the same parts up to key order, even though namespaces may contain colons.
   */
  lemma RequestsShareExactlyWhenEqual(sha: Text -> string, prefix: string, s1: string, v1: nat, parts1: Json,
                                      s2: string, v2: nat, parts2: Json)
    requires WellFormed(parts1) && WellFormed(parts2)
    requires NormalizeNamespace(s1).Some? && NormalizeNamespace(s2).Some?
    requires IsHexDigest(sha(Serialize(parts1))) && IsHexDigest(sha(Serialize(parts2)))
    requires sha(Serialize(parts1)) == sha(Serialize(parts2)) ==> Serialize(parts1) == Serialize(parts2)
    ensures BuildCacheKey(sha, prefix, s1, v1, parts1) == BuildCacheKey(sha, prefix, s2, v2, parts2)
      <==> NormalizeNamespace(s1) == NormalizeNamespace(s2) && v1 == v2 && Same(parts1, parts2)
  {
    SerializeInjective(parts1, parts2);
    if BuildCacheKey(sha, prefix, s1, v1, parts1) == BuildCacheKey(sha, prefix, s2, v2, parts2) {
      DataKeyParts(prefix, NormalizeNamespace(s1).value, v1, sha(Serialize(parts1)),
                   NormalizeNamespace(s2).value, v2, sha(Serialize(parts2)));
    }
  }

  /** Cached values, leases and version counters never share a name; leases and counters are one per subject. */
  lemma NamesNeverCollide(prefix: string, n1: string, v1: nat, d1: string, n2: string, v2: nat, d2: string,
                          name: string)
    requires IsHexDigest(d1) && IsHexDigest(d2)
    ensures DataKey(prefix, n1, v1, d1) != LockKey(DataKey(prefix, n2, v2, d2))
    ensures DataKey(prefix, n1, v1, d1) != VersionKey(prefix, name)
    ensures LockKey(DataKey(prefix, n1, v1, d1)) != VersionKey(prefix, name)
    ensures LockKey(DataKey(prefix, n1, v1, d1)) == LockKey(DataKey(prefix, n2, v2, d2)) ==>
      n1 == n2 && v1 == v2 && d1 == d2
    ensures VersionKey(prefix, n1) == VersionKey(prefix, n2) ==> n1 == n2
  {
    var p := StripColons(prefix) + ":";
    var k1, k2 := DataKey(prefix, n1, v1, d1), DataKey(prefix, n2, v2, d2);
    TailLengthIs(p + n1 + ":v" + Dec(v1), d1);
    assert LockKey(k1) == k1 + ":" + "lock" && LockKey(k2) == k2 + ":" + "lock";
    TailLengthIs(k1, "lock");
    TailLengthIs(k2, "lock");
    assert VersionKey(prefix, name) == (p + name) + ":" + "version";
    TailLengthIs(p + name, "version");
    if LockKey(k1) == LockKey(k2) {
      assert k1 == LockKey(k1)[..|k1|] && k2 == LockKey(k2)[..|k2|];
      DataKeyParts(prefix, n1, v1, d1, n2, v2, d2);
    }
    if VersionKey(prefix, n1) == VersionKey(prefix, n2) {
      assert n1 == VersionKey(prefix, n1)[|p|..|p| + |n1|] && n2 == VersionKey(prefix, n2)[|p|..|p| + |n2|];
    }
  }

  // -------------------------------------------------------------------- what is accepted, character by character

  ghost predicate IsLetterOrDigit(c: char) {
    c in SMALL_LETTERS || c in DIGITS
  }

  lemma NameCharMeans(c: char)
    ensures IsNameChar(c) <==> IsLetterOrDigit(c) || c in ":_-"
    ensures 'a' <= c <= 'z' || IsDigit(c) <==> IsLetterOrDigit(c)
  {
    SmallLetter(c);
    DigitMeans(c);
    hide SMALL_LETTERS, DIGITS;
  }

  /**
    A namespace is accepted exactly as 1 to 80 small letters, digits, colons, underscores and hyphens, the first a
    letter or digit, after the white space around it is dropped and capitals are lowered.
   */
  lemma NamespaceMeans(raw: string, name: string)
    ensures NormalizeNamespace(raw) == Some(name) <==>
            && name == Lower(Trim(raw)) && 1 <= |name| <= 80 && IsLetterOrDigit(name[0])
            && forall c | c in name :: IsLetterOrDigit(c) || c in ":_-"
  {
    forall i | 0 <= i < |name|
      ensures IsNameChar(name[i]) <==> IsLetterOrDigit(name[i]) || name[i] in ":_-"
      ensures 'a' <= name[i] <= 'z' || IsDigit(name[i]) <==> IsLetterOrDigit(name[i])
    {
      NameCharMeans(name[i]);
    }
    hide IsNameChar, IsLetterOrDigit, Lower, Trim;
    assert forall i | 0 <= i < |name| :: name[i] in name;
  }

  /** Of a prefix exactly the colons at its end are dropped. */
  lemma {:induction false} PrefixMeans(prefix: string)
    ensures var kept := StripColons(prefix);
      && kept <= prefix && (forall c | c in prefix[|kept|..] :: c == ':')
      && (kept == "" || kept[|kept| - 1] != ':')
  {
    if prefix != "" && prefix[|prefix| - 1] == ':' {
      var front := prefix[..|prefix| - 1];
      PrefixMeans(front);
      var kept := StripColons(front);
      assert prefix[|kept|..] == front[|kept|..] + [':'];
    }
  }
}
