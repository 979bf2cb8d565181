/**
 * The retention sweep `cleanupOldFiles(directory, maxAgeHours)`: every
 * entry of the directory listing that is not hidden and was last modified
 * strictly before `now - maxAgeHours` hours is unlinked, and the number of
 * files unlinked is returned.
 *
 * The directory is an abstract listing. For each entry the model is given
 * its modification time (or `None` when `stat` fails) and whether unlinking
 * it succeeds. The clock is a parameter.
 */
module Cleanup {
  import opened Base

  /** One name of the listing, what `stat` reports for it, and whether `unlink` succeeds. */
  datatype Entry = Entry(name: string, mtime: Option<int>, unlinkOk: bool)

  const MillisPerHour := 60 * 60 * 1000
  const DefaultMaxAgeHours := 24

  /** `now - maxAgeHours * 3600000`, with `maxAgeHours` defaulting to 24 when not passed. */
  function Cutoff(now: int, maxAgeHours: Option<int>): (c: int)
    ensures maxAgeHours.None? ==> c == now - 86400000
    ensures maxAgeHours.Some? ==> c == now - maxAgeHours.value * 3600000
    ensures maxAgeHours.Some? && maxAgeHours.value >= 0 ==> c <= now
  {
    var hours := match maxAgeHours case Some(h) => h case None => DefaultMaxAgeHours;
    now - hours * MillisPerHour
  }

  /** Names starting with '.' (such as `.gitkeep`) are never touched. */
  predicate Hidden(name: string)
  {
    StartsWith(name, ".")
  }

  /** The entry is old enough to go: not hidden, and its modification time lies strictly before the cutoff. */
  predicate Expired(e: Entry, cutoff: int)
  {
    !Hidden(e.name) && e.mtime.Some? && e.mtime.value < cutoff
  }

  /** The names the sweep removes, in listing order: the expired entries whose unlink succeeds. */
  function Removed(entries: seq<Entry>, cutoff: int): (names: seq<string>)
    ensures |names| <= |entries|
    ensures forall n :: n in names ==> exists e :: e in entries && e.name == n && Expired(e, cutoff) && e.unlinkOk
    ensures forall e :: e in entries && Expired(e, cutoff) && e.unlinkOk ==> e.name in names
  {
    if |entries| == 0 then []
    else
      var rest := Removed(entries[..|entries| - 1], cutoff);
      var e := entries[|entries| - 1];
      if Expired(e, cutoff) && e.unlinkOk then rest + [e.name] else rest
  }

  /**
   * `cleanupOldFiles(directory, maxAgeHours)`. A missing directory, or a
   * listing that cannot be read, gives 0. Otherwise the entries are visited
   * in order; an entry whose `stat` or `unlink` fails is skipped without
   * being counted. The result is the count and the names removed.
   */
  method CleanupOldFiles(dirExists: bool, listing: Option<seq<Entry>>, now: int, maxAgeHours: Option<int>)
    returns (count: nat, removed: seq<string>)
    ensures count == |removed|
    ensures !dirExists || listing.None? ==> count == 0 && removed == []
    ensures dirExists && listing.Some? ==> removed == Removed(listing.value, Cutoff(now, maxAgeHours))
  {
    if !dirExists || listing.None? {
      return 0, [];
    }
    var entries := listing.value;
    var cutoff := Cutoff(now, maxAgeHours);
    count, removed := 0, [];
    var i := 0;
    while i < |entries|
      invariant 0 <= i <= |entries|
      invariant count == |removed|
      invariant removed == Removed(entries[..i], cutoff)
    {
      var e := entries[i];
      RemovedStep(entries, i, cutoff);
      if !Hidden(e.name) && e.mtime.Some? && e.mtime.value < cutoff && e.unlinkOk {
        removed := removed + [e.name];
        count := count + 1;
      }
      i := i + 1;
    }
    assert entries[..i] == entries;
  }

  /** Visiting one more entry adds its name exactly when it is removed. */
  lemma RemovedStep(entries: seq<Entry>, i: nat, cutoff: int)
    requires i < |entries|
    ensures Removed(entries[..i + 1], cutoff) ==
              Removed(entries[..i], cutoff) + (if Expired(entries[i], cutoff) && entries[i].unlinkOk then [entries[i].name] else [])
  {
    assert entries[..i + 1][..i] == entries[..i];
  }

  /** A file modified exactly at the cutoff is kept: the comparison is strict. */
  lemma CutoffIsStrict(entries: seq<Entry>, cutoff: int, e: Entry)
    requires e in entries && e.mtime == Some(cutoff)
    requires forall other :: other in entries && other.name == e.name ==> other == e
    ensures e.name !in Removed(entries, cutoff)
  {
  }

  /** A later cutoff removes at least what an earlier one does. */
  lemma {:induction false} RemovedMonotone(entries: seq<Entry>, c1: int, c2: int)
    requires c1 <= c2
    ensures |Removed(entries, c1)| <= |Removed(entries, c2)|
    ensures forall n :: n in Removed(entries, c1) ==> n in Removed(entries, c2)
  {
    if |entries| > 0 {
      RemovedMonotone(entries[..|entries| - 1], c1, c2);
    }
  }

  /** Hidden names are never in the result, whatever their age. */
  lemma HiddenNeverRemoved(entries: seq<Entry>, cutoff: int, name: string)
    requires Hidden(name)
    ensures name !in Removed(entries, cutoff)
  {
  }
}
