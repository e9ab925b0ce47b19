/** Which backups `delete` and `purge` take (ch_backup.py), and which of their parts must stay (deduplication.py). */
module Selection {
  import opened Bytes
  import opened BackupStore
  import opened StoreMachine

  // ---------- listing and selection

  /** Inserts a backup into a list kept newest first. */
  function InsertByTime(s: Store, names: seq<string>, b: string): (r: seq<string>)
    requires b in s.light && forall x <- names :: x in s.light
    ensures forall x :: x in r <==> x in names || x == b
  {
    if names == [] || s.light[names[0]].time < s.light[b].time then [b] + names
    else [names[0]] + InsertByTime(s, names[1..], b)
  }

  lemma {:induction false} InsertKeepsOrder(s: Store, names: seq<string>, b: string)
    requires TimesAgree(s) && NewestFirst(s, names) && b in s.light && b !in names
    ensures NewestFirst(s, InsertByTime(s, names, b))
  {
    if names != [] && s.light[names[0]].time >= s.light[b].time {
      assert s.light[names[0]].time > s.light[b].time;
      InsertKeepsOrder(s, names[1..], b);
      var tail := InsertByTime(s, names[1..], b);
      forall j | 0 <= j < |tail|
        ensures s.light[names[0]].time > s.light[tail[j]].time
      {
        assert tail[j] in tail;
      }
    }
  }

  /** get_backups over the light metadata. */
  method ListBackups(s: Store) returns (names: seq<string>)
    requires TimesAgree(s)
    ensures NewestFirst(s, names) && forall b :: b in names <==> b in s.light
  {
    names := [];
    var rest := s.light.Keys;
    while rest != {}
      invariant rest <= s.light.Keys
      invariant NewestFirst(s, names) && forall b :: b in names <==> b in s.light && b !in rest
    {
      var b :| b in rest;
      InsertKeepsOrder(s, names, b);
      names := InsertByTime(s, names, b);
      rest := rest - {b};
    }
  }

  /** The first `n` entries of a listing, split in order by a choice of positions. */
  ghost predicate IsSplit(listing: seq<string>, n: nat, takes: nat -> bool, taken: seq<string>, left: seq<string>)
    requires n <= |listing|
  {
    && (forall b :: b in taken || b in left ==> b in listing[..n])
    && (forall j: nat | j < n :: (listing[j] in taken <==> takes(j)) && (listing[j] in left <==> !takes(j)))
  }

  lemma SplitSnoc(listing: seq<string>, n: nat, takes: nat -> bool, taken: seq<string>, left: seq<string>)
    requires n < |listing| && listing[n] !in listing[..n]
    requires IsSplit(listing, n, takes, taken, left)
    ensures takes(n) ==> IsSplit(listing, n + 1, takes, taken + [listing[n]], left)
    ensures !takes(n) ==> IsSplit(listing, n + 1, takes, taken, left + [listing[n]])
  {
    assert listing[..n + 1] == listing[..n] + [listing[n]];
    forall j: nat | j < n
      ensures listing[j] != listing[n]
    {
      assert listing[j] in listing[..n];
    }
  }

  /** Which of the listed backups `delete` takes along. */
  function DeleteTakes(s: Store, listing: seq<string>, name: string, purgePartial: bool): nat -> bool
    requires forall b <- listing :: b in s.light
  {
    (i: nat) => i < |listing| && (listing[i] == name || (purgePartial && s.light[listing[i]].state != Created &&
        i != 0))
  }

  method SelectForDelete(s: Store, listing: seq<string>, name: string, purgePartial: bool)
    returns (found: bool, deleting: seq<string>, retained: seq<string>)
    requires NewestFirst(s, listing)
    ensures found <==> name in listing
    ensures NewestFirst(s, deleting)
    ensures IsSplit(listing, |listing|, DeleteTakes(s, listing, name, purgePartial), deleting, retained)
  {
    found, deleting, retained := false, [], [];
    ghost var takes := DeleteTakes(s, listing, name, purgePartial);
    for i := 0 to |listing|
      invariant found <==> name in listing[..i]
      invariant NewestFirst(s, deleting)
      invariant IsSplit(listing, i, takes, deleting, retained)
    {
      var b := listing[i];
      EarlierIsNewer(s, listing, i);
      SplitSnoc(listing, i, takes, deleting, retained);
      TakenStaysOrdered(s, listing, i, deleting);
      if b == name {
        deleting := deleting + [b];
        found := true;
      } else if purgePartial && s.light[b].state != Created && i != 0 {
        deleting := deleting + [b];
      } else {
        retained := retained + [b];
      }
    }
    assert listing[..|listing|] == listing;
  }

  /** The completed backups among the `n` newest. */
  function CreatedAmong(s: Store, listing: seq<string>, n: nat): nat
    requires n <= |listing| && forall b <- listing :: b in s.light
  {
    if n == 0 then 0
    else CreatedAmong(s, listing, n - 1) + (if s.light[listing[n - 1]].state == Created then 1 else 0)
  }

  /**
   * The backups that `purge` takes: at least `retainCount` newer ones are completed, and the start time is behind the
   * retain time limit, if there is one.
   */
  function PurgeTakes(s: Store, listing: seq<string>, retainCount: int, retainLimit: Option<nat>): nat -> bool
    requires forall b <- listing :: b in s.light
  {
    (i: nat) => i < |listing| && CreatedAmong(s, listing, i) >= retainCount
         && (retainLimit.Some? ==> s.light[listing[i]].time < retainLimit.value)
  }

  /** The loop of `purge`, which counts `retain_count` down as it goes. */
  method SelectForPurge(s: Store, listing: seq<string>, retainCount: int, retainLimit: Option<nat>)
    returns (deleting: seq<string>, retained: seq<string>)
    requires NewestFirst(s, listing)
    ensures NewestFirst(s, deleting)
    ensures IsSplit(listing, |listing|, PurgeTakes(s, listing, retainCount, retainLimit), deleting, retained)
  {
    deleting, retained := [], [];
    var left := retainCount;
    ghost var takes := PurgeTakes(s, listing, retainCount, retainLimit);
    for i := 0 to |listing|
      invariant NewestFirst(s, deleting)
      invariant left > 0 ==> left == retainCount - CreatedAmong(s, listing, i)
      invariant left <= 0 ==> CreatedAmong(s, listing, i) >= retainCount
      invariant IsSplit(listing, i, takes, deleting, retained)
    {
      var b := listing[i];
      EarlierIsNewer(s, listing, i);
      SplitSnoc(listing, i, takes, deleting, retained);
      TakenStaysOrdered(s, listing, i, deleting);
      if left > 0 {
        retained := retained + [b];
        if s.light[b].state == Created {
          left := left - 1;
        }
      } else if retainLimit.Some? && s.light[b].time >= retainLimit.value {
        retained := retained + [b];
      } else {
        deleting := deleting + [b];
      }
    }
  }

  // ---------- which backups that is

  /** Some listed backup is newer. */
  predicate NotNewest(s: Store, b: string)
    requires b in s.light
  {
    exists c <- s.light :: s.light[c].time > s.light[b].time
  }

  predicate ToDelete(s: Store, name: string, purgePartial: bool, b: string) {
    b in s.light && (b == name || (purgePartial && s.light[b].state != Created && NotNewest(s, b)))
  }

  /** The completed backups newer than `b`. */
  function NewerCreated(s: Store, b: string): set<string>
    requires b in s.light
  {
    set c | c in s.light && s.light[c].time > s.light[b].time && s.light[c].state == Created
  }

  predicate ToPurge(s: Store, retainCount: int, retainLimit: Option<nat>, b: string) {
    && b in s.light && |NewerCreated(s, b)| >= retainCount
    && (retainLimit.Some? ==> s.light[b].time < retainLimit.value)
  }

  lemma DeleteSelects(s: Store, listing: seq<string>, name: string, purgePartial: bool, deleting: seq<string>,
                      retained: seq<string>)
    requires NewestFirst(s, listing) && forall b :: b in listing <==> b in s.light
    requires IsSplit(listing, |listing|, DeleteTakes(s, listing, name, purgePartial), deleting, retained)
    ensures forall b :: b in deleting <==> ToDelete(s, name, purgePartial, b)
    ensures forall b :: b in retained <==> b in s.light && b !in deleting
  {
    forall i: nat | i < |listing|
      ensures DeleteTakes(s, listing, name, purgePartial)(i) <==> ToDelete(s, name, purgePartial, listing[i])
    {
      OlderLater(s, listing, i, 0);
      if NotNewest(s, listing[i]) {
        var c :| c in s.light && s.light[c].time > s.light[listing[i]].time;
        var j :| 0 <= j < |listing| && listing[j] == c;
        OlderLater(s, listing, i, j);
      }
    }
    SplitIs(listing, DeleteTakes(s, listing, name, purgePartial), deleting, retained);
  }

  /** A split by a choice that is a property of the entries. */
  lemma SplitIs(listing: seq<string>, takes: nat -> bool, taken: seq<string>, left: seq<string>)
    requires IsSplit(listing, |listing|, takes, taken, left)
    ensures forall b | b in listing :: b in left <==> b !in taken
    ensures forall b | b in taken || b in left :: b in listing
  {
    assert listing[..|listing|] == listing;
    forall b | b in listing
      ensures b in left <==> b !in taken
    {
      var j: nat :| j < |listing| && listing[j] == b;
    }
  }

  function CreatedNames(s: Store, names: seq<string>): set<string> {
    set b | b in names && b in s.light && s.light[b].state == Created
  }

  lemma CreatedSnoc(s: Store, names: seq<string>, last: string)
    requires last !in names && last in s.light
    ensures |CreatedNames(s, names + [last])| ==
            |CreatedNames(s, names)| + (if s.light[last].state == Created then 1 else 0)
  {
    if s.light[last].state == Created {
      assert CreatedNames(s, names + [last]) == CreatedNames(s, names) + {last};
    } else {
      assert CreatedNames(s, names + [last]) == CreatedNames(s, names);
    }
  }

  lemma {:induction false} CreatedAmongCounts(s: Store, listing: seq<string>, n: nat)
    requires NewestFirst(s, listing) && n <= |listing|
    ensures CreatedAmong(s, listing, n) == |CreatedNames(s, listing[..n])|
  {
    if n == 0 {
      assert CreatedNames(s, []) == {};
    } else {
      CreatedAmongCounts(s, listing, n - 1);
      EarlierIsNewer(s, listing, n - 1);
      assert listing[..n] == listing[..n - 1] + [listing[n - 1]];
      CreatedSnoc(s, listing[..n - 1], listing[n - 1]);
    }
  }

  lemma NewerComeBefore(s: Store, listing: seq<string>, i: nat)
    requires NewestFirst(s, listing) && i < |listing| && forall b :: b in listing <==> b in s.light
    ensures CreatedNames(s, listing[..i]) == NewerCreated(s, listing[i])
  {
    EarlierIsNewer(s, listing, i);
    forall c | c in NewerCreated(s, listing[i])
      ensures c in listing[..i]
    {
      var j :| 0 <= j < |listing| && listing[j] == c;
      OlderLater(s, listing, i, j);
      assert listing[..i][j] == c;
    }
  }

  lemma PurgeSelects(s: Store, listing: seq<string>, retainCount: int, retainLimit: Option<nat>, deleting: seq<string>,
                     retained: seq<string>)
    requires NewestFirst(s, listing) && forall b :: b in listing <==> b in s.light
    requires IsSplit(listing, |listing|, PurgeTakes(s, listing, retainCount, retainLimit), deleting, retained)
    ensures forall b :: b in deleting <==> ToPurge(s, retainCount, retainLimit, b)
    ensures forall b :: b in retained <==> b in s.light && b !in deleting
  {
    forall i: nat | i < |listing|
      ensures PurgeTakes(s, listing, retainCount, retainLimit)(i) <==> ToPurge(s, retainCount, retainLimit, listing[i])
    {
      CreatedAmongCounts(s, listing, i);
      NewerComeBefore(s, listing, i);
    }
    SplitIs(listing, PurgeTakes(s, listing, retainCount, retainLimit), deleting, retained);
  }

  // ---------- the references of the retained backups

  /** collect_dedup_references_for_batch_backup_deletion, part by part. */
  method CollectRefs(s: Store, retained: seq<string>, deleting: seq<string>) returns (refs: map<string, set<PartKey>>)
    requires forall b :: b in retained <==> b in s.light && b !in deleting
    requires forall b <- retained :: b in s.full
    ensures refs == CollectReferences(s, deleting)
  {
    refs := map b | b in deleting :: {};
    for i := 0 to |retained|
      invariant refs.Keys == set b | b in deleting
      invariant forall b <- deleting :: refs[b] == RefsFrom(s, retained[..i], b)
    {
      assert retained[i] in retained;
      ghost var before := refs;
      refs := AddRefs(s.full[retained[i]], deleting, refs);
      assert retained[..i + 1] == retained[..i] + [retained[i]];
      forall b <- deleting
        ensures refs[b] == RefsFrom(s, retained[..i + 1], b)
      {
        RefsFromSnoc(s, retained[..i], retained[i], b);
      }
    }
    assert retained[..|retained|] == retained;
    forall b <- deleting
      ensures refs[b] == References(s, set x <- deleting :: x, b)
    {
      RefsFromAll(s, retained, deleting, b);
    }
  }

  /** The part loop for one retained backup. */
  method AddRefs(meta: BackupMeta, deleting: seq<string>, before: map<string, set<PartKey>>)
    returns (refs: map<string, set<PartKey>>)
    requires before.Keys == set b | b in deleting
    ensures refs.Keys == before.Keys
    ensures forall b <- deleting :: refs[b] == before[b] + RefsOf(meta, meta.parts.Keys, b)
  {
    refs := before;
    var rest := meta.parts.Keys;
    while rest != {}
      invariant rest <= meta.parts.Keys && refs.Keys == before.Keys
      invariant forall b <- deleting :: refs[b] == before[b] + RefsOf(meta, meta.parts.Keys - rest, b)
    {
      var key :| key in rest;
      var part := meta.parts[key];
      ghost var seen := meta.parts.Keys - rest;
      forall b <- deleting
        ensures RefsOf(meta, seen + {key}, b)
                == RefsOf(meta, seen, b) + (if part.link == Some(b) then {StoredKey(key, part)} else {})
      {
        RefsOfAdd(meta, seen, key, b);
      }
      assert meta.parts.Keys - (rest - {key}) == seen + {key};
      if part.link.Some? && part.link.value in deleting {
        refs := refs[part.link.value := refs[part.link.value] + {StoredKey(key, part)}];
      }
      rest := rest - {key};
    }
    assert meta.parts.Keys - rest == meta.parts.Keys;
  }

  /** The parts of `owner` that one backup links to, as far as the parts in `keys` go. */
  function RefsOf(m: BackupMeta, keys: set<PartKey>, owner: string): set<PartKey> {
    set key | key in keys && key in m.parts && m.parts[key].link == Some(owner) :: StoredKey(key, m.parts[key])
  }

  lemma RefsOfAdd(m: BackupMeta, keys: set<PartKey>, key: PartKey, owner: string)
    requires key in m.parts
    ensures RefsOf(m, keys + {key}, owner)
            == RefsOf(m, keys, owner) + (if m.parts[key].link == Some(owner) then {StoredKey(key, m.parts[key])}
                else {})
  {
  }

  function RefsFrom(s: Store, backups: seq<string>, owner: string): set<PartKey>
    requires forall b <- backups :: b in s.full
  {
    set b, key | b in backups && key in s.full[b].parts && s.full[b].parts[key].link == Some(owner) ::
      StoredKey(key, s.full[b].parts[key])
  }

  lemma RefsFromSnoc(s: Store, backups: seq<string>, last: string, owner: string)
    requires last in s.full && forall b <- backups :: b in s.full
    ensures RefsFrom(s, backups + [last], owner)
            == RefsFrom(s, backups, owner) + RefsOf(s.full[last], s.full[last].parts.Keys, owner)
  {
    var all, init, one := RefsFrom(s, backups + [last], owner), RefsFrom(s, backups, owner),
                          RefsOf(s.full[last], s.full[last].parts.Keys, owner);
    forall k
      ensures k in all <==> k in init || k in one
    {
      if k in init {
        var b, key :| b in backups && key in s.full[b].parts && s.full[b].parts[key].link == Some(owner)
                      && StoredKey(key, s.full[b].parts[key]) == k;
        assert b in backups + [last];
      }
      if k in one {
        var key :| key in s.full[last].parts && s.full[last].parts[key].link == Some(owner)
                   && StoredKey(key, s.full[last].parts[key]) == k;
        assert last in backups + [last];
      }
    }
  }

  lemma RefsFromAll(s: Store, retained: seq<string>, deleting: seq<string>, owner: string)
    requires forall b :: b in retained <==> b in s.light && b !in deleting
    requires forall b <- retained :: b in s.full
    ensures RefsFrom(s, retained, owner) == References(s, set x <- deleting :: x, owner)
  {
    var left, right := RefsFrom(s, retained, owner), References(s, set x <- deleting :: x, owner);
    forall k
      ensures k in left <==> k in right
    {
      if k in left {
        var b, key :| b in retained && key in s.full[b].parts && s.full[b].parts[key].link == Some(owner)
                      && StoredKey(key, s.full[b].parts[key]) == k;
        assert b in s.light && b in s.full && b !in (set x <- deleting :: x);
      }
      if k in right {
        var b, key :| b in s.light && b in s.full && b !in (set x <- deleting :: x) && key in s.full[b].parts
                      && s.full[b].parts[key].link == Some(owner) && StoredKey(key, s.full[b].parts[key]) == k;
        assert b in retained;
      }
    }
  }
}
