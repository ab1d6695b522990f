/**
 The daily refresh of the blocklist: each day `curl` downloads the list to a `.tmp`
 file, which is renamed over the list file, which is then loaded. The download, the
 rename and the file's contents are inputs here.
 */
module Refresher {
  import opened Blocklist

  /** How the `curl` child process ended: it could not be started, or it exited with a
      status that is a success or not. */
  datatype CurlStatus = SpawnFailed | Exited(success: bool)

  /** One day's attempt: the `curl` status, whether the rename of the `.tmp` file over
      the list file worked (tried only after a successful download), and what opening
      the list file then gives. */
  datatype Attempt = Attempt(curl: CurlStatus, renamed: bool, file: ListFile)

  /** The attempt got as far as loading the list file. */
  predicate Reloads(a: Attempt) {
    a.curl == Exited(true) && a.renamed
  }

  /** The attempt replaced the list: downloaded, renamed, and the file opened. */
  predicate Succeeded(a: Attempt) {
    Reloads(a) && a.file.Opened?
  }

  /** The list after one attempt over the list `links`. */
  function Refreshed(links: set<string>, a: Attempt): (r: set<string>)
    ensures !Succeeded(a) ==> r == links
    ensures Succeeded(a) ==> r == ParseList(a.file.lines)
  {
    if Reloads(a) then Loaded(links, a.file) else links
  }

  /** The list after a run of daily attempts: the starting list, or the list parsed from
      one of the successful attempts. */
  function RefreshAll(links: set<string>, attempts: seq<Attempt>): (r: set<string>)
    ensures r == links
            || exists k :: 0 <= k < |attempts| && Succeeded(attempts[k])
                 && r == ParseList(attempts[k].file.lines)
  {
    if attempts == [] then links
    else Refreshed(RefreshAll(links, attempts[..|attempts| - 1]), attempts[|attempts| - 1])
  }

  /** When no attempt succeeded, the list is the one held at the start. */
  lemma {:induction false} NoSuccessKeepsList(links: set<string>, attempts: seq<Attempt>)
    requires forall j :: 0 <= j < |attempts| ==> !Succeeded(attempts[j])
    ensures RefreshAll(links, attempts) == links
  {
    if attempts != [] {
      NoSuccessKeepsList(links, attempts[..|attempts| - 1]);
    }
  }

  /** The list is always the one parsed from the last successful attempt: failed
      downloads, failed renames and unopenable files never change it, and nothing of
      older lists survives a success. */
  lemma {:induction false} ListIsLastSuccess(links: set<string>, attempts: seq<Attempt>, k: nat)
    requires k < |attempts| && Succeeded(attempts[k])
    requires forall j :: k < j < |attempts| ==> !Succeeded(attempts[j])
    ensures RefreshAll(links, attempts) == ParseList(attempts[k].file.lines)
  {
    if k < |attempts| - 1 {
      ListIsLastSuccess(links, attempts[..|attempts| - 1], k);
    }
  }

  /** One iteration of the daily loop. */
  method DailyDownload(protect: PhishingProtect, a: Attempt)
    modifies protect
    ensures protect.links == Refreshed(old(protect.links), a)
  {
    match a.curl
    case Exited(success) =>
      if success {
        if a.renamed {
          protect.Load(a.file);
        }
      }
    case SpawnFailed =>
  }

  /** The daily loop over the attempts of successive days. */
  method StartDailyDownload(protect: PhishingProtect, attempts: seq<Attempt>)
    modifies protect
    ensures protect.links == RefreshAll(old(protect.links), attempts)
  {
    for i := 0 to |attempts|
      invariant protect.links == RefreshAll(old(protect.links), attempts[..i])
    {
      assert attempts[..i + 1][..i] == attempts[..i];
      DailyDownload(protect, attempts[i]);
    }
    assert attempts[..|attempts|] == attempts;
  }
}
