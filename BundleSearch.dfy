/**
 * The macOS discovery strategy: a depth-first, pre-order walk of the directories under
 * `/Applications` that returns the first directory ending in "LibreOffice.app" and never
 * descends into a directory ending in ".app".
 */
module BundleSearch {
  import opened Wrappers
  import opened Strings

  /**
   * A directory: its full path and its sub-directories in enumeration order. The search is
   * started on `/Applications`, whose own path is never tested.
   */
  datatype Dir = Dir(path: string, children: seq<Dir>)

  const BundleName := "LibreOffice.app"
  const AppSuffix := ".app"

  /** The search over the children of `d` from the `i`-th on. */
  function FindFrom(d: Dir, i: nat): (r: Option<string>)
    requires i <= |d.children|
    ensures r.Some? ==> EndsWith(r.value, BundleName)
    decreases d, |d.children| - i
  {
    if i == |d.children| then None
    else
      var c := d.children[i];
      if EndsWith(c.path, BundleName) then Some(c.path)
      else if !EndsWith(c.path, AppSuffix) && FindFrom(c, 0).Some? then FindFrom(c, 0)
      else FindFrom(d, i + 1)
  }

  /** The search below `d`; `d` itself is not tested. */
  function Find(d: Dir): (r: Option<string>)
    ensures r.Some? ==> EndsWith(r.value, BundleName) && |d.children| > 0
  {
    FindFrom(d, 0)
  }

  /** `FindLibreOfficeApp`: a loop over the children with early return, recursing into non-bundles. */
  method FindLibreOfficeApp(d: Dir) returns (found: Option<string>)
    ensures found == Find(d)
    decreases d
  {
    var i := 0;
    while i < |d.children|
      invariant i <= |d.children|
      invariant FindFrom(d, i) == Find(d)
    {
      var dir := d.children[i];
      if EndsWith(dir.path, BundleName) {
        return Some(dir.path);
      }
      if !EndsWith(dir.path, AppSuffix) {
        var sub := FindLibreOfficeApp(dir);
        if sub.Some? {
          return sub;
        }
      }
      i := i + 1;
    }
    return None;
  }

  /** Reference order: the paths below `d` in depth-first pre-order, not descending below a ".app". */
  function ListingFrom(d: Dir, i: nat): seq<string>
    requires i <= |d.children|
    decreases d, |d.children| - i
  {
    if i == |d.children| then []
    else
      var c := d.children[i];
      [c.path] + (if EndsWith(c.path, AppSuffix) then [] else ListingFrom(c, 0)) + ListingFrom(d, i + 1)
  }

  function Listing(d: Dir): seq<string> {
    ListingFrom(d, 0)
  }

  /** The first path of a list that ends in "LibreOffice.app". */
  function FirstBundle(paths: seq<string>): Option<string> {
    if paths == [] then None
    else if EndsWith(paths[0], BundleName) then Some(paths[0])
    else FirstBundle(paths[1..])
  }

  lemma {:induction false} FirstBundleAppend(a: seq<string>, b: seq<string>)
    ensures FirstBundle(a + b) == if FirstBundle(a).Some? then FirstBundle(a) else FirstBundle(b)
  {
    if a != [] {
      assert (a + b)[0] == a[0] && (a + b)[1..] == a[1..] + b;
      FirstBundleAppend(a[1..], b);
    } else {
      assert a + b == b;
    }
  }

  /** The first bundle of a list is in it, ends in "LibreOffice.app", and no earlier entry does. */
  lemma {:induction false} FirstBundleIsFirst(paths: seq<string>)
    ensures FirstBundle(paths).None? <==> forall k :: 0 <= k < |paths| ==> !EndsWith(paths[k], BundleName)
    ensures FirstBundle(paths).Some? ==>
      exists k :: 0 <= k < |paths| && paths[k] == FirstBundle(paths).value
                  && forall j :: 0 <= j < k ==> !EndsWith(paths[j], BundleName)
  {
    if paths != [] && !EndsWith(paths[0], BundleName) {
      FirstBundleIsFirst(paths[1..]);
      assert forall k :: 1 <= k < |paths| ==> paths[k] == paths[1..][k - 1];
      if FirstBundle(paths).Some? {
        var k :| 0 <= k < |paths[1..]| && paths[1..][k] == FirstBundle(paths).value
                 && forall j :: 0 <= j < k ==> !EndsWith(paths[1..][j], BundleName);
        assert paths[k + 1] == FirstBundle(paths).value;
        assert forall j :: 0 <= j < k + 1 ==> !EndsWith(paths[j], BundleName) by {
          forall j | 0 <= j < k + 1 ensures !EndsWith(paths[j], BundleName) {
            if j > 0 { assert paths[j] == paths[1..][j - 1]; }
          }
        }
      }
    }
  }

  /** The search returns the first "LibreOffice.app" of the pruned pre-order listing, or absent when there is none. */
  lemma {:induction false} FindFromIsFirstInListing(d: Dir, i: nat)
    requires i <= |d.children|
    ensures FindFrom(d, i) == FirstBundle(ListingFrom(d, i))
    decreases d, |d.children| - i
  {
    if i < |d.children| {
      var c := d.children[i];
      var below := if EndsWith(c.path, AppSuffix) then [] else ListingFrom(c, 0);
      FindFromIsFirstInListing(d, i + 1);
      assert ListingFrom(d, i) == [c.path] + (below + ListingFrom(d, i + 1));
      if !EndsWith(c.path, BundleName) {
        assert ([c.path] + (below + ListingFrom(d, i + 1)))[1..] == below + ListingFrom(d, i + 1);
        FirstBundleAppend(below, ListingFrom(d, i + 1));
        if !EndsWith(c.path, AppSuffix) {
          FindFromIsFirstInListing(c, 0);
        }
      }
    }
  }

  /** The search result in terms of the pre-order listing: first match, or absent exactly when nothing matches. */
  lemma FindIsFirstInPreOrder(d: Dir)
    ensures Find(d).None? <==> forall k :: 0 <= k < |Listing(d)| ==> !EndsWith(Listing(d)[k], BundleName)
    ensures Find(d).Some? ==>
      EndsWith(Find(d).value, BundleName)
      && exists k :: 0 <= k < |Listing(d)| && Listing(d)[k] == Find(d).value
                     && forall j :: 0 <= j < k ==> !EndsWith(Listing(d)[j], BundleName)
  {
    FindFromIsFirstInListing(d, 0);
    FirstBundleIsFirst(Listing(d));
  }

  /** `d` with the contents of every ".app" directory below it removed. */
  function Prune(d: Dir): (p: Dir)
    ensures p.path == d.path && |p.children| == |d.children|
    decreases d, 0
  {
    Dir(d.path, seq(|d.children|, i requires 0 <= i < |d.children| => PruneChild(d.children[i])))
  }

  function PruneChild(c: Dir): (p: Dir)
    ensures p.path == c.path
    decreases c, 1
  {
    if EndsWith(c.path, AppSuffix) then Dir(c.path, []) else Prune(c)
  }

  lemma {:induction false} PruneKeepsFindFrom(d: Dir, i: nat)
    requires i <= |d.children|
    ensures FindFrom(Prune(d), i) == FindFrom(d, i)
    decreases d, |d.children| - i
  {
    if i < |d.children| {
      var c := d.children[i];
      assert Prune(d).children[i] == PruneChild(c);
      PruneKeepsFindFrom(d, i + 1);
      if !EndsWith(c.path, AppSuffix) {
        PruneKeepsFindFrom(c, 0);
      }
    }
  }

  /** The search never descends into a ".app" directory: their contents do not affect the result. */
  lemma NoDescentIntoApps(d: Dir)
    ensures Find(Prune(d)) == Find(d)
  {
    PruneKeepsFindFrom(d, 0);
  }
}
