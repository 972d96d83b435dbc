/**
 * The metadata catalog of downloaded videos (`VideoMetadataManager`): an
 * append-only list of records, kept in `videos/metadata.json` and rewritten
 * in full on every change. The file is modelled by the `entries` field.
 */
module Catalog {
  import opened Wrappers
  import opened Text

  /** One record of the catalog file. `createdAt` is the wall-clock time at which it was added. */
  datatype Entry = Entry(
    id: int,
    prompt: string,
    modelId: string,
    originalFilename: string,
    createdAt: int,
    filename: string)

  /** The canonical storage name of a video, `{id}.mp4`. */
  function StorageFilename(id: int): (name: string)
    ensures EndsWith(name, ".mp4") && |name| > 4
    ensures id >= 0 ==> AllDigits(name[..|name| - 4]) && (name[0] == '0' <==> id == 0)
  {
    assert (IntToString(id) + ".mp4")[..|IntToString(id)|] == IntToString(id);
    IntToString(id) + ".mp4"
  }

  /** The stem of a video's file name is its id: `int()` of it gives the id back. */
  lemma StorageFilenameNamesId(id: int)
    ensures var name := StorageFilename(id); ParseInt(name[..|name| - 4]) == Some(id)
  {
    var name := StorageFilename(id);
    assert name[..|name| - 4] == IntToString(id);
    ParseIntOfIntToString(id);
  }


  /** The record `add_video_metadata` builds. */
  function NewEntry(id: int, prompt: string, modelId: string, originalFilename: string, now: int): (e: Entry)
    ensures e.id == id && e.createdAt == now && e.filename == StorageFilename(id)
    ensures e.prompt == prompt && e.modelId == modelId && e.originalFilename == originalFilename
  {
    Entry(id, prompt, modelId, originalFilename, now, StorageFilename(id))
  }

  /** The largest id of a non-empty catalog. */
  function MaxId(s: seq<Entry>): (m: int)
    requires |s| > 0
    ensures forall i :: 0 <= i < |s| ==> s[i].id <= m
    ensures exists i :: 0 <= i < |s| && s[i].id == m
    decreases |s|
  {
    if |s| == 1 then s[0].id
    else
      var rest := MaxId(s[1..]);
      assert forall i :: 1 <= i < |s| ==> s[i] == s[1..][i - 1];
      if s[0].id >= rest then s[0].id else rest
  }

  /** `get_next_video_number`: 1 on an empty catalog, otherwise the largest id plus one. */
  function NextId(s: seq<Entry>): (n: int)
    ensures s == [] ==> n == 1
    ensures forall i :: 0 <= i < |s| ==> s[i].id < n
    ensures s != [] ==> exists i :: 0 <= i < |s| && s[i].id == n - 1
  {
    if s == [] then 1 else MaxId(s) + 1
  }

  /** Entry `i` is the first, in catalog order, whose id is `id`. */
  predicate IsFirstWithId(s: seq<Entry>, id: int, i: int) {
    0 <= i < |s| && s[i].id == id && forall j :: 0 <= j < i ==> s[j].id != id
  }

  /** `name in prompt or name in original_filename`. */
  predicate MatchesName(e: Entry, name: string) {
    IsSubstring(name, e.prompt) || IsSubstring(name, e.originalFilename)
  }

  /** Entry `i` is the first, in catalog order, that matches `name`. */
  predicate IsFirstWithName(s: seq<Entry>, name: string, i: int) {
    0 <= i < |s| && MatchesName(s[i], name) && forall j :: 0 <= j < i ==> !MatchesName(s[j], name)
  }

  /**
   * After `add_video_metadata`, a name search for the new record's prompt or
   * original file name finds a record, and finds the new one when no older
   * record matches.
   */
  lemma AppendedEntryIsFound(s: seq<Entry>, id: int, prompt: string, modelId: string, originalFilename: string, now: int)
    ensures var t := s + [NewEntry(id, prompt, modelId, originalFilename, now)];
      && MatchesName(t[|s|], prompt) && MatchesName(t[|s|], originalFilename)
      && ((forall i :: 0 <= i < |s| ==> !MatchesName(s[i], prompt)) ==> IsFirstWithName(t, prompt, |s|))
      && ((forall i :: 0 <= i < |s| ==> !MatchesName(s[i], originalFilename)) ==> IsFirstWithName(t, originalFilename, |s|))
  {
    var t := s + [NewEntry(id, prompt, modelId, originalFilename, now)];
    SubstringAt(prompt, prompt, 0);
    SubstringAt(originalFilename, originalFilename, 0);
    assert t[|s|] == NewEntry(id, prompt, modelId, originalFilename, now);
    assert forall i :: 0 <= i < |s| ==> t[i] == s[i];
  }

  /** Ordered by creation time, newest first. */
  predicate NewestFirst(s: seq<Entry>) {
    forall i, j :: 0 <= i < j < |s| ==> s[i].createdAt >= s[j].createdAt
  }

  /** The entries created at time `t`, in their order in `s`. */
  function CreatedAt(s: seq<Entry>, t: int): seq<Entry>
    decreases |s|
  {
    if s == [] then [] else (if s[0].createdAt == t then [s[0]] else []) + CreatedAt(s[1..], t)
  }

  /** Puts `x` in front of the first entry that is not newer than it. */
  function InsertNewestFirst(x: Entry, r: seq<Entry>): (t: seq<Entry>)
    ensures |t| == |r| + 1
    decreases |r|
  {
    if r == [] then [x]
    else if x.createdAt >= r[0].createdAt then [x] + r
    else [r[0]] + InsertNewestFirst(x, r[1..])
  }

  /**
   * `sorted(metadata, key=created_at, reverse=True)`: a stable sort, so
   * entries created at the same time keep their catalog order.
   */
  function SortNewestFirst(s: seq<Entry>): (t: seq<Entry>)
    ensures |t| == |s|
    decreases |s|
  {
    if s == [] then [] else InsertNewestFirst(s[0], SortNewestFirst(s[1..]))
  }

  lemma {:induction false} InsertPermutes(x: Entry, r: seq<Entry>)
    ensures multiset(InsertNewestFirst(x, r)) == multiset(r) + multiset{x}
    decreases |r|
  {
    if r != [] && x.createdAt < r[0].createdAt {
      InsertPermutes(x, r[1..]);
      assert r == [r[0]] + r[1..];
    }
  }

  lemma {:induction false} InsertKeepsOrder(x: Entry, r: seq<Entry>)
    requires NewestFirst(r)
    ensures NewestFirst(InsertNewestFirst(x, r))
    decreases |r|
  {
    if r != [] && x.createdAt < r[0].createdAt {
      var rest := InsertNewestFirst(x, r[1..]);
      InsertKeepsOrder(x, r[1..]);
      InsertPermutes(x, r[1..]);
      forall k | 0 <= k < |rest| ensures rest[k].createdAt <= r[0].createdAt {
        assert rest[k] in multiset(rest);
        assert rest[k] == x || rest[k] in multiset(r[1..]);
      }
    }
  }

  lemma {:induction false} InsertKeepsTies(x: Entry, r: seq<Entry>, t: int)
    ensures CreatedAt(InsertNewestFirst(x, r), t)
      == if x.createdAt == t then [x] + CreatedAt(r, t) else CreatedAt(r, t)
    decreases |r|
  {
    if r == [] {
    } else if x.createdAt >= r[0].createdAt {
      assert ([x] + r)[1..] == r;
    } else {
      InsertKeepsTies(x, r[1..], t);
      assert ([r[0]] + InsertNewestFirst(x, r[1..]))[1..] == InsertNewestFirst(x, r[1..]);
    }
  }

  lemma {:induction false} SortPermutes(s: seq<Entry>)
    ensures multiset(SortNewestFirst(s)) == multiset(s)
    decreases |s|
  {
    if s != [] {
      SortPermutes(s[1..]);
      InsertPermutes(s[0], SortNewestFirst(s[1..]));
      assert s == [s[0]] + s[1..];
    }
  }

  lemma {:induction false} SortOrders(s: seq<Entry>)
    ensures NewestFirst(SortNewestFirst(s))
    decreases |s|
  {
    if s != [] {
      SortOrders(s[1..]);
      InsertKeepsOrder(s[0], SortNewestFirst(s[1..]));
    }
  }

  lemma {:induction false} SortKeepsTies(s: seq<Entry>, t: int)
    ensures CreatedAt(SortNewestFirst(s), t) == CreatedAt(s, t)
    decreases |s|
  {
    if s != [] {
      SortKeepsTies(s[1..], t);
      InsertKeepsTies(s[0], SortNewestFirst(s[1..]), t);
    }
  }

  /**
   * The listing is a permutation of the catalog, newest first, and entries
   * with equal creation times keep their catalog order.
   */
  lemma SortNewestFirstCorrect(s: seq<Entry>)
    ensures NewestFirst(SortNewestFirst(s))
    ensures multiset(SortNewestFirst(s)) == multiset(s)
    ensures forall t :: CreatedAt(SortNewestFirst(s), t) == CreatedAt(s, t)
  {
    SortOrders(s);
    SortPermutes(s);
    forall t ensures CreatedAt(SortNewestFirst(s), t) == CreatedAt(s, t) {
      SortKeepsTies(s, t);
    }
  }

  /** Ids 1, 2, ..., N in catalog order. */
  predicate IdsOneToN(s: seq<Entry>) {
    forall i :: 0 <= i < |s| ==> s[i].id == i + 1
  }

  /** Ids increase strictly in catalog order, so no id occurs twice. */
  predicate IdsIncreasing(s: seq<Entry>) {
    forall i, j :: 0 <= i < j < |s| ==> s[i].id < s[j].id
  }

  /** Allocating then appending never reuses an id and keeps ids increasing. */
  lemma AllocateKeepsIdsIncreasing(s: seq<Entry>, prompt: string, modelId: string, originalFilename: string, now: int)
    requires IdsIncreasing(s)
    ensures IdsIncreasing(s + [NewEntry(NextId(s), prompt, modelId, originalFilename, now)])
  {
  }

  /** On a catalog numbered 1..N the next id is N + 1. */
  lemma NextIdAfterOneToN(s: seq<Entry>)
    requires IdsOneToN(s)
    ensures NextId(s) == |s| + 1
  {
    if s != [] {
      assert s[|s| - 1].id == |s|;
    }
  }

  /** What one download records: the fields of a new entry other than its id. */
  datatype Recording = Recording(prompt: string, modelId: string, originalFilename: string, createdAt: int)

  /** The catalog after allocating an id and adding an entry for each recording in turn. */
  function RecordAll(s: seq<Entry>, recs: seq<Recording>): seq<Entry>
    decreases |recs|
  {
    if recs == [] then s
    else
      var r := recs[0];
      RecordAll(s + [NewEntry(NextId(s), r.prompt, r.modelId, r.originalFilename, r.createdAt)], recs[1..])
  }

  /** Appending the entry with id N + 1 to a catalog numbered 1..N keeps it numbered. */
  lemma AppendKeepsOneToN(s: seq<Entry>, e: Entry)
    requires IdsOneToN(s) && e.id == |s| + 1
    ensures IdsOneToN(s + [e])
  {
  }

  lemma {:induction false} RecordAllKeepsOneToN(s: seq<Entry>, recs: seq<Recording>)
    requires IdsOneToN(s)
    ensures |RecordAll(s, recs)| == |s| + |recs|
    ensures IdsOneToN(RecordAll(s, recs))
    ensures forall i :: 0 <= i < |s| ==> RecordAll(s, recs)[i] == s[i]
    ensures forall i :: |s| <= i < |s| + |recs| ==>
      RecordAll(s, recs)[i].filename == StorageFilename(i + 1)
    decreases |recs|
  {
    if recs != [] {
      var r := recs[0];
      NextIdAfterOneToN(s);
      var e := NewEntry(|s| + 1, r.prompt, r.modelId, r.originalFilename, r.createdAt);
      var s' := s + [e];
      AppendKeepsOneToN(s, e);
      RecordAllKeepsOneToN(s', recs[1..]);
      var t := RecordAll(s', recs[1..]);
      assert RecordAll(s, recs) == t;
      assert t[|s|] == s'[|s|] == e;
      forall i | 0 <= i < |s| ensures t[i] == s[i] {
        assert t[i] == s'[i];
      }
    }
  }

  /** N allocate-then-add steps on an empty catalog give ids 1..N and files 1.mp4..N.mp4. */
  lemma RecordAllFromEmpty(recs: seq<Recording>)
    ensures |RecordAll([], recs)| == |recs|
    ensures IdsOneToN(RecordAll([], recs))
    ensures forall i :: 0 <= i < |recs| ==> RecordAll([], recs)[i].filename == StorageFilename(i + 1)
  {
    RecordAllKeepsOneToN([], recs);
  }

  /** `VideoMetadataManager`: the catalog file's records, read and rewritten in full. */
  class MetadataManager {
    /** The records of `metadata.json`, in file order. */
    var entries: seq<Entry>

    /** A manager over a catalog file holding `stored` (empty when the file is absent). */
    constructor (stored: seq<Entry>)
      ensures entries == stored
    {
      entries := stored;
    }

    /** `get_next_video_number`. */
    method GetNextVideoNumber() returns (n: int)
      ensures n == NextId(entries)
      ensures forall i :: 0 <= i < |entries| ==> entries[i].id < n
    {
      if entries == [] {
        n := 1;
      } else {
        n := MaxId(entries) + 1;
      }
    }

    /** `add_video_metadata`: appends one record, timestamped `now`, and rewrites the file. */
    method AddVideoMetadata(videoId: int, prompt: string, modelId: string, originalFilename: string, now: int)
      modifies this
      ensures entries == old(entries) + [NewEntry(videoId, prompt, modelId, originalFilename, now)]
      ensures |entries| == |old(entries)| + 1
      ensures entries[|entries| - 1].filename == StorageFilename(videoId)
    {
      var metadata := entries;
      metadata := metadata + [NewEntry(videoId, prompt, modelId, originalFilename, now)];
      entries := metadata;
    }

    /** `get_video_by_id`: the first record with this id, or `None`. */
    method GetVideoById(videoId: int) returns (r: Option<Entry>)
      ensures r.None? <==> forall i :: 0 <= i < |entries| ==> entries[i].id != videoId
      ensures r.Some? ==> exists i :: IsFirstWithId(entries, videoId, i) && entries[i] == r.value
    {
      var i := 0;
      while i < |entries|
        invariant 0 <= i <= |entries|
        invariant forall j :: 0 <= j < i ==> entries[j].id != videoId
      {
        if entries[i].id == videoId {
          assert IsFirstWithId(entries, videoId, i);
          return Some(entries[i]);
        }
        i := i + 1;
      }
      return None;
    }

    /** `get_video_by_name`: the first record whose prompt or original filename contains `name`. */
    method GetVideoByName(name: string) returns (r: Option<Entry>)
      ensures r.None? <==> forall i :: 0 <= i < |entries| ==> !MatchesName(entries[i], name)
      ensures r.Some? ==> exists i :: IsFirstWithName(entries, name, i) && entries[i] == r.value
    {
      var i := 0;
      while i < |entries|
        invariant 0 <= i <= |entries|
        invariant forall j :: 0 <= j < i ==> !MatchesName(entries[j], name)
      {
        if IsSubstring(name, entries[i].prompt) || IsSubstring(name, entries[i].originalFilename) {
          assert IsFirstWithName(entries, name, i);
          return Some(entries[i]);
        }
        i := i + 1;
      }
      return None;
    }

    /** `get_all_videos`: every record, newest first, ties in catalog order. */
    function GetAllVideos(): (r: seq<Entry>)
      reads this
      ensures NewestFirst(r)
      ensures multiset(r) == multiset(entries)
      ensures forall t :: CreatedAt(r, t) == CreatedAt(entries, t)
    {
      SortNewestFirstCorrect(entries);
      SortNewestFirst(entries)
    }
  }
}
