/**
 * The retention sweep over the download directory, as a function of the
 * directory listing: which entries are still there after `cleanup_downloads`.
 */
module Retention {
  /**
   * One name in the directory listing. `removable` says whether deleting it
   * (and reading its modification time) succeeds; when it does not, the
   * exception ends the whole sweep.
   */
  datatype DirEntry = DirEntry(name: string, isFile: bool, mtime: int, removable: bool)

  /** A regular file whose age is strictly greater than the limit. */
  predicate Expired(e: DirEntry, now: int, maxAgeSeconds: int) {
    e.isFile && now - e.mtime > maxAgeSeconds
  }

  /**
   * The listing after the sweep: expired files are dropped in listing order; the
   * first expired file that cannot be removed stops the sweep, so it and
   * everything after it stay.
   */
  function Swept(es: seq<DirEntry>, now: int, maxAgeSeconds: int): (r: seq<DirEntry>)
    ensures |r| <= |es|
  {
    if es == [] then []
    else if Expired(es[0], now, maxAgeSeconds) then
      (if es[0].removable then Swept(es[1..], now, maxAgeSeconds) else es)
    else [es[0]] + Swept(es[1..], now, maxAgeSeconds)
  }

  /** One step of the sweep, for the loop that performs it. */
  lemma SweptStep(es: seq<DirEntry>, now: int, maxAgeSeconds: int)
    requires es != []
    ensures Expired(es[0], now, maxAgeSeconds) && !es[0].removable ==> Swept(es, now, maxAgeSeconds) == es
    ensures Expired(es[0], now, maxAgeSeconds) && es[0].removable ==> Swept(es, now, maxAgeSeconds) == Swept(es[1..], now, maxAgeSeconds)
    ensures !Expired(es[0], now, maxAgeSeconds) ==> Swept(es, now, maxAgeSeconds) == [es[0]] + Swept(es[1..], now, maxAgeSeconds)
  {
  }

  /** The reference filter: the entries that are not expired, in order. */
  function Fresh(es: seq<DirEntry>, now: int, maxAgeSeconds: int): seq<DirEntry>
  {
    if es == [] then []
    else if Expired(es[0], now, maxAgeSeconds) then Fresh(es[1..], now, maxAgeSeconds)
    else [es[0]] + Fresh(es[1..], now, maxAgeSeconds)
  }

  /** The filter keeps exactly the entries that are not expired. */
  lemma {:induction false} FreshMembers(es: seq<DirEntry>, now: int, maxAgeSeconds: int)
    ensures forall e :: e in Fresh(es, now, maxAgeSeconds) <==> e in es && !Expired(e, now, maxAgeSeconds)
  {
    if es != [] {
      FreshMembers(es[1..], now, maxAgeSeconds);
      assert forall e :: e in es <==> e == es[0] || e in es[1..];
    }
  }

  lemma FreshStep(es: seq<DirEntry>, now: int, maxAgeSeconds: int)
    requires es != []
    ensures Fresh(es, now, maxAgeSeconds)
            == (if Expired(es[0], now, maxAgeSeconds) then [] else [es[0]]) + Fresh(es[1..], now, maxAgeSeconds)
  {
    if Expired(es[0], now, maxAgeSeconds) {
      assert [] + Fresh(es[1..], now, maxAgeSeconds) == Fresh(es[1..], now, maxAgeSeconds);
    }
  }

  /** Nothing that is not an expired file is ever removed, and nothing is added. */
  lemma {:induction false} SweptKeepsFresh(es: seq<DirEntry>, now: int, maxAgeSeconds: int)
    ensures forall e :: e in es && !Expired(e, now, maxAgeSeconds) ==> e in Swept(es, now, maxAgeSeconds)
    ensures forall e :: e in Swept(es, now, maxAgeSeconds) ==> e in es
  {
    if es != [] {
      SweptKeepsFresh(es[1..], now, maxAgeSeconds);
      assert forall e :: e in es ==> e == es[0] || e in es[1..];
    }
  }

  /** When every deletion succeeds the sweep is exactly the filter. */
  lemma {:induction false} SweptWhenAllRemovable(es: seq<DirEntry>, now: int, maxAgeSeconds: int)
    requires forall i :: 0 <= i < |es| ==> es[i].removable
    ensures Swept(es, now, maxAgeSeconds) == Fresh(es, now, maxAgeSeconds)
  {
    if es != [] {
      SweptWhenAllRemovable(es[1..], now, maxAgeSeconds);
    }
  }

  /**
   * The first failing deletion, at index k, ends the sweep: the entries before it
   * are filtered and the rest, the failing entry included, stay as they were.
   */
  lemma {:induction false} SweptStopsAtFailure(es: seq<DirEntry>, k: nat, now: int, maxAgeSeconds: int)
    requires k < |es| && Expired(es[k], now, maxAgeSeconds) && !es[k].removable
    requires forall i :: 0 <= i < k && Expired(es[i], now, maxAgeSeconds) ==> es[i].removable
    ensures Swept(es, now, maxAgeSeconds) == Fresh(es[..k], now, maxAgeSeconds) + es[k..]
  {
    if k > 0 {
      var rest := es[1..];
      assert forall i :: 0 <= i < k - 1 ==> rest[i] == es[i + 1];
      SweptStopsAtFailure(rest, k - 1, now, maxAgeSeconds);
      SweptStep(es, now, maxAgeSeconds);
      var front := es[..k];
      assert front[0] == es[0] && front[1..] == rest[..k - 1];
      assert rest[k - 1..] == es[k..];
      FreshStep(front, now, maxAgeSeconds);
      var pre: seq<DirEntry> := if Expired(es[0], now, maxAgeSeconds) then [] else [es[0]];
      var tail := Fresh(rest[..k - 1], now, maxAgeSeconds);
      assert Swept(es, now, maxAgeSeconds) == pre + Swept(rest, now, maxAgeSeconds);
      assert pre + (tail + es[k..]) == (pre + tail) + es[k..];
    } else {
      SweptStep(es, now, maxAgeSeconds);
      assert es[..0] == [] && es[0..] == es;
    }
  }

  /** With a limit of 0 hours a full sweep leaves only directories and files not older than now. */
  lemma ZeroLimitKeepsOnlyNonFiles(es: seq<DirEntry>, now: int)
    requires forall i :: 0 <= i < |es| ==> es[i].removable && es[i].mtime < now
    ensures forall e :: e in Swept(es, now, 0) ==> !e.isFile
  {
    SweptWhenAllRemovable(es, now, 0);
    FreshMembers(es, now, 0);
    forall e | e in Swept(es, now, 0) ensures !e.isFile {
      var i :| 0 <= i < |es| && es[i] == e;
    }
  }
}
