/**
 * The Windows discovery strategy: the sub-keys of an uninstall-registration root key are
 * enumerated in order, and the first whose application name starts with "LibreOffice"
 * decides the result.
 */
module RegistrySearch {
  import opened Wrappers
  import opened Strings
  import opened Platform

  /** One sub-key of an uninstall root: its key name and its two string values, when present. */
  datatype SubKey = SubKey(name: string, displayName: Option<string>, installLocation: Option<string>)

  /** The part of `HKEY_LOCAL_MACHINE` that is read: each root key that exists, with its sub-keys in enumeration order. */
  type Registry = map<string, seq<SubKey>>

  const UninstallKey := "SOFTWARE\\Microsoft\\Windows\\CurrentVersion\\Uninstall"
  const UninstallKey86 := "SOFTWARE\\WOW6432Node\\Microsoft\\Windows\\CurrentVersion\\Uninstall"
  const ProductName := "LibreOffice"

  /** The name a sub-key is matched by: its DisplayName, or else its own key name. */
  function AppName(k: SubKey): string {
    match k.displayName
    case Some(d) => d
    case None => k.name
  }

  predicate IsLibreOffice(k: SubKey) {
    StartsWith(AppName(k), ProductName)
  }

  /** The InstallLocation of the first matching sub-key (absent when it has none), or absent when none matches. */
  function FirstMatch(keys: seq<SubKey>): (r: Option<string>)
    ensures r.Some? ==> exists k :: 0 <= k < |keys| && IsLibreOffice(keys[k]) && keys[k].installLocation == r
  {
    if keys == [] then None
    else if IsLibreOffice(keys[0]) then keys[0].installLocation
    else FirstMatch(keys[1..])
  }

  /** The search under one root key; a root key that does not exist yields absent. */
  function Lookup(registry: Registry, rootKey: string): (r: Option<string>)
    ensures r.Some? ==> (
              rootKey in registry
              && exists k :: 0 <= k < |registry[rootKey]| && IsLibreOffice(registry[rootKey][k])
                             && registry[rootKey][k].installLocation == r)
  {
    if rootKey in registry then FirstMatch(registry[rootKey]) else None
  }

  /** The Windows install location: the primary root, and the WOW6432Node root only when that yields absent. */
  function WindowsInstallLocation(registry: Registry): (r: Option<string>)
    ensures Lookup(registry, UninstallKey).Some? ==> r == Lookup(registry, UninstallKey)
    ensures r.None? <==> Lookup(registry, UninstallKey).None? && Lookup(registry, UninstallKey86).None?
    ensures r.Some? ==> r == Lookup(registry, UninstallKey) || r == Lookup(registry, UninstallKey86)
  {
    var dir := Lookup(registry, UninstallKey);
    if dir.None? then Lookup(registry, UninstallKey86) else dir
  }

  /**
   * `FindLibreOfficeInstallDirectoryInner`: a loop over the sub-keys that returns at the
   * first match; off Windows it returns absent without reading the registry.
   */
  method FindInstallDirectoryInner(os: OS, registry: Registry, rootKey: string) returns (dir: Option<string>)
    ensures dir == if os == Windows then Lookup(registry, rootKey) else None
  {
    if os != Windows {
      return None;
    }
    if rootKey in registry {
      var subKeys := registry[rootKey];
      for i := 0 to |subKeys|
        invariant FirstMatch(subKeys[i..]) == FirstMatch(subKeys)
      {
        assert subKeys[i..][0] == subKeys[i] && subKeys[i..][1..] == subKeys[i + 1..];
        var appKey := subKeys[i];
        var appName := AppName(appKey);
        if !StartsWith(appName, ProductName) {
          continue;
        }
        return appKey.installLocation;
      }
      assert subKeys[|subKeys|..] == [];
    }
    return None;
  }

  /**
   * A sub-key is matched by its DisplayName when it has one, whatever its key name is, and by
   * its key name only when it has no DisplayName.
   */
  lemma DisplayNameTakesPrecedence(k: SubKey, rest: seq<SubKey>)
    ensures k.displayName.Some? ==>
      FirstMatch([k] + rest) == if StartsWith(k.displayName.value, ProductName) then k.installLocation else FirstMatch(rest)
    ensures k.displayName.None? ==>
      FirstMatch([k] + rest) == if StartsWith(k.name, ProductName) then k.installLocation else FirstMatch(rest)
  {
    assert ([k] + rest)[0] == k && ([k] + rest)[1..] == rest;
  }

  /** The result is the InstallLocation of the first matching sub-key, whatever follows it. */
  lemma {:induction false} FirstMatchIsFirst(keys: seq<SubKey>, j: nat)
    requires j < |keys| && IsLibreOffice(keys[j])
    requires forall i :: 0 <= i < j ==> !IsLibreOffice(keys[i])
    ensures FirstMatch(keys) == keys[j].installLocation
  {
    if j > 0 {
      assert !IsLibreOffice(keys[0]);
      FirstMatchIsFirst(keys[1..], j - 1);
    }
  }

  /** Sub-keys after any matching one never affect the result. */
  lemma {:induction false} LaterKeysIgnored(keys: seq<SubKey>, j: nat, later: seq<SubKey>)
    requires j < |keys| && IsLibreOffice(keys[j])
    ensures FirstMatch(keys[..j + 1] + later) == FirstMatch(keys)
  {
    if !IsLibreOffice(keys[0]) {
      assert (keys[..j + 1] + later)[1..] == keys[1..][..j] + later;
      LaterKeysIgnored(keys[1..], j - 1, later);
    }
  }

  /** With no matching sub-key the search yields absent. */
  lemma {:induction false} NoMatchIsAbsent(keys: seq<SubKey>)
    requires forall i :: 0 <= i < |keys| ==> !IsLibreOffice(keys[i])
    ensures FirstMatch(keys) == None
  {
    if keys != [] {
      NoMatchIsAbsent(keys[1..]);
    }
  }

  /** A found location belongs to a matching sub-key before which no sub-key matches. */
  lemma {:induction false} FoundIsFirstMatch(keys: seq<SubKey>)
    requires FirstMatch(keys).Some?
    ensures exists j :: 0 <= j < |keys| && IsLibreOffice(keys[j]) && keys[j].installLocation == FirstMatch(keys)
                        && forall i :: 0 <= i < j ==> !IsLibreOffice(keys[i])
  {
    if !IsLibreOffice(keys[0]) {
      FoundIsFirstMatch(keys[1..]);
      var j :| 0 <= j < |keys[1..]| && IsLibreOffice(keys[1..][j])
               && keys[1..][j].installLocation == FirstMatch(keys[1..])
               && forall i :: 0 <= i < j ==> !IsLibreOffice(keys[1..][i]);
      assert forall i :: 0 <= i < j + 1 ==> !IsLibreOffice(keys[i]) by {
        forall i | 0 <= i < j + 1 ensures !IsLibreOffice(keys[i]) {
          if i > 0 { assert keys[i] == keys[1..][i - 1]; }
        }
      }
      assert keys[j + 1] == keys[1..][j];
    }
  }

  /** A missing root key, or one without a matching sub-key, yields absent. */
  lemma LookupNotFound(registry: Registry, rootKey: string)
    requires rootKey !in registry
      || forall i :: 0 <= i < |registry[rootKey]| ==> !IsLibreOffice(registry[rootKey][i])
    ensures Lookup(registry, rootKey) == None
  {
    if rootKey in registry {
      NoMatchIsAbsent(registry[rootKey]);
    }
  }

  /** When the primary root yields a location, the WOW6432Node root is never consulted. */
  lemma PrimaryWins(registry: Registry, wow: seq<SubKey>)
    requires Lookup(registry, UninstallKey).Some?
    ensures WindowsInstallLocation(registry[UninstallKey86 := wow]) == Lookup(registry, UninstallKey)
  {
  }

  /**
   * When the primary root yields absent, whether it is missing, has no match, or its first
   * match has no InstallLocation, the result is exactly the WOW6432Node root's.
   */
  lemma FallbackToWow(registry: Registry)
    requires UninstallKey !in registry
      || (forall i :: 0 <= i < |registry[UninstallKey]| ==> !IsLibreOffice(registry[UninstallKey][i]))
      || (exists j :: 0 <= j < |registry[UninstallKey]| && IsLibreOffice(registry[UninstallKey][j])
            && registry[UninstallKey][j].installLocation.None?
            && forall i :: 0 <= i < j ==> !IsLibreOffice(registry[UninstallKey][i]))
    ensures WindowsInstallLocation(registry) == Lookup(registry, UninstallKey86)
  {
    if UninstallKey in registry {
      var keys := registry[UninstallKey];
      if exists j :: 0 <= j < |keys| && IsLibreOffice(keys[j]) && keys[j].installLocation.None?
                     && forall i :: 0 <= i < j ==> !IsLibreOffice(keys[i]) {
        var j :| 0 <= j < |keys| && IsLibreOffice(keys[j]) && keys[j].installLocation.None?
                 && forall i :: 0 <= i < j ==> !IsLibreOffice(keys[i]);
        FirstMatchIsFirst(keys, j);
      } else {
        NoMatchIsAbsent(keys);
      }
    }
  }

  /** A Windows location found is the InstallLocation of a matching sub-key under one of the two roots. */
  lemma WindowsFoundInARoot(registry: Registry)
    requires WindowsInstallLocation(registry).Some?
    ensures exists root :: (
              (root == UninstallKey || root == UninstallKey86) && root in registry
              && exists j :: 0 <= j < |registry[root]| && IsLibreOffice(registry[root][j])
                             && registry[root][j].installLocation == WindowsInstallLocation(registry))
  {
    var root := if Lookup(registry, UninstallKey).Some? then UninstallKey else UninstallKey86;
    assert Lookup(registry, root) == WindowsInstallLocation(registry);
    FoundIsFirstMatch(registry[root]);
  }
}
