/** The history ledger written by `saveToHistory`: one summary per
    (day, cat name), updated in place when it exists and appended otherwise,
    then pruned of every entry dated before the retention cutoff. */
module History {
  import opened Wrappers
  import opened Pets

  datatype Entry = Entry(date: Day, catName: string, completed: nat, total: nat)

  /** The key the ledger looks entries up by. */
  predicate Matches(e: Entry, date: Day, catName: string)
  {
    e.date == date && e.catName == catName
  }

  /** At most one entry per (day, cat name). */
  predicate UniqueKeys(h: seq<Entry>)
  {
    forall i, j :: 0 <= i < j < |h| ==> !Matches(h[j], h[i].date, h[i].catName)
  }

  // ---------------------------------------------------------------------------
  // Lookup

  /** `history.find(...)`, as a position: the first entry with the key, or
      nothing when no entry has it. */
  function FindEntry(h: seq<Entry>, date: Day, catName: string): (r: Option<nat>)
    ensures r.Some? ==> r.value < |h| && Matches(h[r.value], date, catName)
    ensures r.Some? ==> forall j :: 0 <= j < r.value ==> !Matches(h[j], date, catName)
    ensures r.None? <==> forall j :: 0 <= j < |h| ==> !Matches(h[j], date, catName)
  {
    if h == [] then None
    else if Matches(h[0], date, catName) then Some(0)
    else match FindEntry(h[1..], date, catName)
      case None => None
      case Some(i) => Some(i + 1)
  }

  /** The entry `find` returns. */
  function Lookup(h: seq<Entry>, date: Day, catName: string): (r: Option<Entry>)
  {
    match FindEntry(h, date, catName)
    case None => None
    case Some(i) => Some(h[i])
  }

  /** An entry with the key and no earlier one is what `find` returns. */
  lemma FindEntryIsFirst(h: seq<Entry>, date: Day, catName: string, i: nat)
    requires i < |h| && Matches(h[i], date, catName)
    requires forall j :: 0 <= j < i ==> !Matches(h[j], date, catName)
    ensures FindEntry(h, date, catName) == Some(i)
  {
  }

  /** `find` on a ledger with one more entry in front. */
  lemma FindEntryCons(x: Entry, t: seq<Entry>, date: Day, catName: string)
    ensures FindEntry([x] + t, date, catName)
         == if Matches(x, date, catName) then Some(0)
            else match FindEntry(t, date, catName)
              case None => None
              case Some(i) => Some(i + 1)
  {
  }

  // ---------------------------------------------------------------------------
  // Update-or-insert

  /** The write step of `saveToHistory`: overwrite the counts of the first
      entry with the key, or append a new entry when there is none. */
  function Upsert(h: seq<Entry>, date: Day, catName: string, completed: nat, total: nat): (r: seq<Entry>)
    ensures Lookup(r, date, catName) == Some(Entry(date, catName, completed, total))
    ensures |r| == if FindEntry(h, date, catName).Some? then |h| else |h| + 1
    ensures forall j :: 0 <= j < |h| && !Matches(h[j], date, catName) ==> r[j] == h[j]
  {
    match FindEntry(h, date, catName)
    case Some(i) =>
      var r := h[i := h[i].(completed := completed, total := total)];
      FindEntryIsFirst(r, date, catName, i);
      r
    case None =>
      var r := h + [Entry(date, catName, completed, total)];
      FindEntryIsFirst(r, date, catName, |h|);
      r
  }

  /** Writing the same key twice leaves only the second write. */
  lemma UpsertTwice(h: seq<Entry>, date: Day, catName: string, c1: nat, t1: nat, c2: nat, t2: nat)
    ensures Upsert(Upsert(h, date, catName, c1, t1), date, catName, c2, t2) == Upsert(h, date, catName, c2, t2)
  {
  }

  /** Updating or inserting never creates a second entry for a key. */
  lemma UpsertKeepsUniqueKeys(h: seq<Entry>, date: Day, catName: string, completed: nat, total: nat)
    requires UniqueKeys(h)
    ensures UniqueKeys(Upsert(h, date, catName, completed, total))
  {
  }

  // ---------------------------------------------------------------------------
  // Retention

  /** `history.filter(entry => entry date >= cutoff)`: the entries dated on or
      after the first day kept, in their original order. */
  function Prune(h: seq<Entry>, cutoff: Day): (r: seq<Entry>)
    ensures |r| <= |h|
    ensures forall e :: e in r <==> e in h && e.date >= cutoff
  {
    if h == [] then []
    else (if h[0].date >= cutoff then [h[0]] else []) + Prune(h[1..], cutoff)
  }

  /** Pruning works segment by segment: it keeps the relative order. */
  lemma {:induction false} PruneAppend(a: seq<Entry>, b: seq<Entry>, cutoff: Day)
    ensures Prune(a + b, cutoff) == Prune(a, cutoff) + Prune(b, cutoff)
  {
    if a != [] {
      var head := if a[0].date >= cutoff then [a[0]] else [];
      assert (a + b)[0] == a[0];
      assert (a + b)[1..] == a[1..] + b;
      PruneAppend(a[1..], b, cutoff);
      calc {
        Prune(a + b, cutoff);
        head + Prune(a[1..] + b, cutoff);
        head + (Prune(a[1..], cutoff) + Prune(b, cutoff));
        (head + Prune(a[1..], cutoff)) + Prune(b, cutoff);
        Prune(a, cutoff) + Prune(b, cutoff);
      }
    } else {
      assert a + b == b;
    }
  }

  /** A ledger with nothing older than the cutoff is kept as it is. */
  lemma {:induction false} PruneKeepsRecent(h: seq<Entry>, cutoff: Day)
    requires forall i :: 0 <= i < |h| ==> h[i].date >= cutoff
    ensures Prune(h, cutoff) == h
  {
    if h != [] {
      PruneKeepsRecent(h[1..], cutoff);
    }
  }

  /** Pruning twice with the same cutoff is pruning once. */
  lemma PruneIdempotent(h: seq<Entry>, cutoff: Day)
    ensures Prune(Prune(h, cutoff), cutoff) == Prune(h, cutoff)
  {
    var p := Prune(h, cutoff);
    forall i | 0 <= i < |p| ensures p[i].date >= cutoff {
      assert p[i] in p;
    }
    PruneKeepsRecent(p, cutoff);
  }

  /** Pruning never creates a second entry for a key. */
  lemma {:induction false} PruneKeepsUniqueKeys(h: seq<Entry>, cutoff: Day)
    requires UniqueKeys(h)
    ensures UniqueKeys(Prune(h, cutoff))
  {
    if h != [] {
      var rest := Prune(h[1..], cutoff);
      PruneKeepsUniqueKeys(h[1..], cutoff);
      if h[0].date >= cutoff {
        forall j | 0 <= j < |rest| ensures !Matches(rest[j], h[0].date, h[0].catName) {
          assert rest[j] in rest;
          var k :| 0 <= k < |h[1..]| && h[1..][k] == rest[j];
          assert h[k + 1] == rest[j];
        }
      }
    }
  }

  /** For a key dated on or after the cutoff, pruning does not change what
      `find` returns. */
  lemma {:induction false} PruneKeepsLookup(h: seq<Entry>, date: Day, catName: string, cutoff: Day)
    requires cutoff <= date
    ensures FindEntry(h, date, catName).Some? == FindEntry(Prune(h, cutoff), date, catName).Some?
    ensures Lookup(Prune(h, cutoff), date, catName) == Lookup(h, date, catName)
  {
    if h != [] {
      PruneKeepsLookup(h[1..], date, catName, cutoff);
      var rest := Prune(h[1..], cutoff);
      FindEntryCons(h[0], h[1..], date, catName);
      assert h == [h[0]] + h[1..];
      if h[0].date >= cutoff {
        assert Prune(h, cutoff) == [h[0]] + rest;
        FindEntryCons(h[0], rest, date, catName);
      } else {
        assert Prune(h, cutoff) == rest;
      }
    }
  }

  /** Writing a key into a ledger with one more entry in front. */
  lemma UpsertCons(x: Entry, t: seq<Entry>, date: Day, catName: string, completed: nat, total: nat)
    ensures Upsert([x] + t, date, catName, completed, total)
         == if Matches(x, date, catName) then [x.(completed := completed, total := total)] + t
            else [x] + Upsert(t, date, catName, completed, total)
  {
  }

  /** Pruning commutes with writing a key dated on or after the cutoff. */
  lemma {:induction false} PruneUpsert(h: seq<Entry>, date: Day, catName: string, completed: nat, total: nat, cutoff: Day)
    requires cutoff <= date
    ensures Prune(Upsert(h, date, catName, completed, total), cutoff)
         == Upsert(Prune(h, cutoff), date, catName, completed, total)
  {
    var e := Entry(date, catName, completed, total);
    if h == [] {
      assert Upsert(h, date, catName, completed, total) == [e];
      assert Prune([e], cutoff) == [e] + Prune([], cutoff);
    } else {
      var x, t := h[0], h[1..];
      assert h == [x] + t;
      UpsertCons(x, t, date, catName, completed, total);
      var rest := Prune(t, cutoff);
      if Matches(x, date, catName) {
        var x' := x.(completed := completed, total := total);
        assert ([x'] + t)[1..] == t;
        assert Prune(h, cutoff) == [x] + rest;
        UpsertCons(x, rest, date, catName, completed, total);
      } else {
        var u := Upsert(t, date, catName, completed, total);
        assert ([x] + u)[1..] == u;
        PruneUpsert(t, date, catName, completed, total, cutoff);
        if x.date >= cutoff {
          assert Prune(h, cutoff) == [x] + rest;
          UpsertCons(x, rest, date, catName, completed, total);
        } else {
          assert Prune(h, cutoff) == rest;
        }
      }
    }
  }

  // ---------------------------------------------------------------------------
  // The whole of saveToHistory on the ledger

  /** Upsert the summary for (day, cat name), then drop everything dated
      before the cutoff. */
  function Record(h: seq<Entry>, date: Day, catName: string, completed: nat, total: nat, cutoff: Day): (r: seq<Entry>)
    ensures forall i :: 0 <= i < |r| ==> r[i].date >= cutoff
    ensures forall e :: e in r && !Matches(e, date, catName) ==> e in h
    ensures forall e :: e in h && e.date >= cutoff && !Matches(e, date, catName) ==> e in r
  {
    var u := Upsert(h, date, catName, completed, total);
    var r := Prune(u, cutoff);
    assert forall i :: 0 <= i < |r| ==> r[i] in r;
    assert forall e :: e in u && !Matches(e, date, catName) ==> e in h;
    r
  }

  /** After recording, `find` returns exactly the summary just written,
      provided the day written is not already past the retention cutoff. */
  lemma RecordedEntry(h: seq<Entry>, date: Day, catName: string, completed: nat, total: nat, cutoff: Day)
    requires cutoff <= date
    ensures Lookup(Record(h, date, catName, completed, total, cutoff), date, catName)
         == Some(Entry(date, catName, completed, total))
  {
    PruneKeepsLookup(Upsert(h, date, catName, completed, total), date, catName, cutoff);
  }

  /** Recording keeps at most one entry per key. */
  lemma RecordKeepsUniqueKeys(h: seq<Entry>, date: Day, catName: string, completed: nat, total: nat, cutoff: Day)
    requires UniqueKeys(h)
    ensures UniqueKeys(Record(h, date, catName, completed, total, cutoff))
  {
    UpsertKeepsUniqueKeys(h, date, catName, completed, total);
    PruneKeepsUniqueKeys(Upsert(h, date, catName, completed, total), cutoff);
  }

  /** Recording the same key twice on one day equals recording only the
      latest counts: never two entries, always the latest. */
  lemma RecordTwice(h: seq<Entry>, date: Day, catName: string, c1: nat, t1: nat, c2: nat, t2: nat, cutoff: Day)
    requires cutoff <= date
    ensures Record(Record(h, date, catName, c1, t1, cutoff), date, catName, c2, t2, cutoff)
         == Record(h, date, catName, c2, t2, cutoff)
  {
    var p := Prune(h, cutoff);
    calc {
      Record(Record(h, date, catName, c1, t1, cutoff), date, catName, c2, t2, cutoff);
      Prune(Upsert(Prune(Upsert(h, date, catName, c1, t1), cutoff), date, catName, c2, t2), cutoff);
      { PruneUpsert(h, date, catName, c1, t1, cutoff); }
      Prune(Upsert(Upsert(p, date, catName, c1, t1), date, catName, c2, t2), cutoff);
      { UpsertTwice(p, date, catName, c1, t1, c2, t2); }
      Prune(Upsert(p, date, catName, c2, t2), cutoff);
      { PruneUpsert(p, date, catName, c2, t2, cutoff); }
      Upsert(Prune(p, cutoff), date, catName, c2, t2);
      { PruneIdempotent(h, cutoff); }
      Upsert(p, date, catName, c2, t2);
      { PruneUpsert(h, date, catName, c2, t2, cutoff); }
      Record(h, date, catName, c2, t2, cutoff);
    }
  }
}
