/**
 * S3 object tags and the tag list that TagS3Object.onTrigger sends to the
 * store: in append mode the fetched tags minus every entry with the new key,
 * then the new tag; in replace mode the new tag alone.
 */
module Tagging {

  /** One tag of an S3 object (com.amazonaws.services.s3.model.Tag). */
  datatype Tag = Tag(key: string, value: string)

  /** The number of entries of `tags` whose key is `k`. */
  function CountKey(tags: seq<Tag>, k: string): (n: nat)
    ensures n <= |tags|
  {
    if tags == [] then 0
    else (if tags[0].key == k then 1 else 0) + CountKey(tags[1..], k)
  }

  /** No two entries of `tags` share a key. */
  ghost predicate KeysUnique(tags: seq<Tag>)
  {
    forall i, j :: 0 <= i < j < |tags| ==> tags[i].key != tags[j].key
  }

  /** The stream filter: the entries whose key is not `k`, in their order. */
  function WithoutKey(tags: seq<Tag>, k: string): (r: seq<Tag>)
    ensures |r| <= |tags|
    ensures forall i :: 0 <= i < |r| ==> r[i].key != k
  {
    if tags == [] then []
    else if tags[0].key == k then WithoutKey(tags[1..], k)
    else [tags[0]] + WithoutKey(tags[1..], k)
  }

  /**
   * The list sent to setObjectTagging: the list starts empty, is replaced by
   * the filtered fetched tags in append mode, and gets the new tag added last.
   */
  function TagSetFor(appendTag: bool, existing: seq<Tag>, newTagKey: string, newTagVal: string): (r: seq<Tag>)
    ensures 1 <= |r| <= |existing| + 1
    ensures r[|r| - 1] == Tag(newTagKey, newTagVal)
    ensures forall i :: 0 <= i < |r| - 1 ==> r[i].key != newTagKey
    ensures !appendTag ==> |r| == 1
  {
    var kept := if appendTag then WithoutKey(existing, newTagKey) else [];
    kept + [Tag(newTagKey, newTagVal)]
  }

  lemma {:induction false} CountKeyConcat(a: seq<Tag>, b: seq<Tag>, k: string)
    ensures CountKey(a + b, k) == CountKey(a, k) + CountKey(b, k)
  {
    if a != [] {
      assert (a + b)[1..] == a[1..] + b;
      CountKeyConcat(a[1..], b, k);
    } else {
      assert a + b == b;
    }
  }

  /** A key is counted zero times exactly when no entry carries it. */
  lemma {:induction false} CountKeyZero(tags: seq<Tag>, k: string)
    ensures CountKey(tags, k) == 0 <==> forall i :: 0 <= i < |tags| ==> tags[i].key != k
  {
    if tags != [] {
      CountKeyZero(tags[1..], k);
      assert forall i :: 1 <= i < |tags| ==> tags[i] == tags[1..][i - 1];
    }
  }

  /** The filter drops exactly the entries with key `k` and keeps every copy of the others. */
  lemma {:induction false} WithoutKeyMultiset(tags: seq<Tag>, k: string)
    ensures forall t: Tag :: multiset(WithoutKey(tags, k))[t] == if t.key == k then 0 else multiset(tags)[t]
  {
    if tags != [] {
      WithoutKeyMultiset(tags[1..], k);
      assert tags == [tags[0]] + tags[1..];
    }
  }

  /** Membership in the filtered list: both directions. */
  lemma {:induction false} WithoutKeyMembers(tags: seq<Tag>, k: string)
    ensures forall t: Tag :: t in WithoutKey(tags, k) <==> t in tags && t.key != k
  {
    WithoutKeyMultiset(tags, k);
    forall t
      ensures t in WithoutKey(tags, k) <==> t in tags && t.key != k
    {
      assert t in WithoutKey(tags, k) <==> multiset(WithoutKey(tags, k))[t] > 0;
      assert t in tags <==> multiset(tags)[t] > 0;
    }
  }

  lemma {:induction false} WithoutKeyLength(tags: seq<Tag>, k: string)
    ensures |WithoutKey(tags, k)| == |tags| - CountKey(tags, k)
  {
    if tags != [] {
      WithoutKeyLength(tags[1..], k);
    }
  }

  /** The filter works entry by entry, so it keeps the relative order of what it keeps. */
  lemma {:induction false} WithoutKeyConcat(a: seq<Tag>, b: seq<Tag>, k: string)
    ensures WithoutKey(a + b, k) == WithoutKey(a, k) + WithoutKey(b, k)
  {
    if a != [] {
      assert (a + b)[0] == a[0];
      assert (a + b)[1..] == a[1..] + b;
      WithoutKeyConcat(a[1..], b, k);
    } else {
      assert a + b == b;
    }
  }

  /** A list without the key passes the filter unchanged. */
  lemma {:induction false} WithoutKeyAbsent(tags: seq<Tag>, k: string)
    requires CountKey(tags, k) == 0
    ensures WithoutKey(tags, k) == tags
  {
    if tags != [] {
      WithoutKeyAbsent(tags[1..], k);
      assert tags == [tags[0]] + tags[1..];
    }
  }

  /** Filtering a list whose keys are unique leaves them unique. */
  lemma {:induction false} WithoutKeyKeepsUnique(tags: seq<Tag>, k: string)
    requires KeysUnique(tags)
    ensures KeysUnique(WithoutKey(tags, k))
  {
    if tags != [] {
      var rest := tags[1..];
      assert KeysUnique(rest) by {
        forall i, j | 0 <= i < j < |rest| ensures rest[i].key != rest[j].key {
          assert rest[i] == tags[i + 1] && rest[j] == tags[j + 1];
        }
      }
      WithoutKeyKeepsUnique(rest, k);
      if tags[0].key != k {
        var kept := WithoutKey(rest, k);
        WithoutKeyMembers(rest, k);
        forall j | 0 <= j < |kept| ensures tags[0].key != kept[j].key {
          assert kept[j] in rest;
          var m :| 0 <= m < |rest| && rest[m] == kept[j];
          assert rest[m] == tags[m + 1];
        }
        var r := [tags[0]] + kept;
        forall i, j | 0 <= i < j < |r| ensures r[i].key != r[j].key {
          if i == 0 {
            assert r[j] == kept[j - 1];
          } else {
            assert r[i] == kept[i - 1] && r[j] == kept[j - 1];
          }
        }
      }
    }
  }

  /** Replace mode: the fetched list plays no part; only the new tag is sent. */
  lemma ReplaceModeTagSet(existing: seq<Tag>, newTagKey: string, newTagVal: string)
    ensures TagSetFor(false, existing, newTagKey, newTagVal) == [Tag(newTagKey, newTagVal)]
  {
  }

  /**
   * Append mode: the new tag comes last and is the only entry with its key,
   * nothing with another key is dropped (duplicates included), and the length
   * is the old length less the entries with the new key, plus one.
   */
  lemma AppendModeTagSet(existing: seq<Tag>, newTagKey: string, newTagVal: string)
    ensures var r := TagSetFor(true, existing, newTagKey, newTagVal);
      && r[|r| - 1] == Tag(newTagKey, newTagVal)
      && r[..|r| - 1] == WithoutKey(existing, newTagKey)
      && CountKey(r, newTagKey) == 1
      && |r| == |existing| - CountKey(existing, newTagKey) + 1
      && (forall t: Tag :: t.key != newTagKey ==> multiset(r)[t] == multiset(existing)[t])
      && (forall t: Tag :: t in r <==> t == Tag(newTagKey, newTagVal) || (t in existing && t.key != newTagKey))
  {
    var kept := WithoutKey(existing, newTagKey);
    var r := kept + [Tag(newTagKey, newTagVal)];
    assert r[..|r| - 1] == kept;
    WithoutKeyMultiset(existing, newTagKey);
    WithoutKeyMembers(existing, newTagKey);
    WithoutKeyLength(existing, newTagKey);
    CountKeyConcat(kept, [Tag(newTagKey, newTagVal)], newTagKey);
    assert CountKey(kept, newTagKey) == 0 by {
      CountKeyZero(kept, newTagKey);
      forall i | 0 <= i < |kept| ensures kept[i].key != newTagKey {
        assert kept[i] in kept;
      }
    }
  }

  /** Append mode without a prior entry for the key: the new tag is simply added last. */
  lemma AppendNewKey(existing: seq<Tag>, newTagKey: string, newTagVal: string)
    requires forall i :: 0 <= i < |existing| ==> existing[i].key != newTagKey
    ensures TagSetFor(true, existing, newTagKey, newTagVal) == existing + [Tag(newTagKey, newTagVal)]
  {
    CountKeyZero(existing, newTagKey);
    WithoutKeyAbsent(existing, newTagKey);
  }

  /** Over unique keys, only the entry at `i` carries its key. */
  lemma UniqueKeyAt(existing: seq<Tag>, i: nat)
    requires KeysUnique(existing)
    requires i < |existing|
    ensures CountKey(existing[..i], existing[i].key) == 0
    ensures CountKey(existing[i + 1..], existing[i].key) == 0
  {
    var k := existing[i].key;
    var before, after := existing[..i], existing[i + 1..];
    forall j | 0 <= j < |before| ensures before[j].key != k {
      assert before[j] == existing[j];
    }
    forall j | 0 <= j < |after| ensures after[j].key != k {
      assert after[j] == existing[i + 1 + j];
    }
    CountKeyZero(before, k);
    CountKeyZero(after, k);
  }

  /** An entry with the key between two parts without it is all the filter removes. */
  lemma WithoutKeyAround(before: seq<Tag>, t: Tag, after: seq<Tag>, k: string)
    requires CountKey(before, k) == 0 && CountKey(after, k) == 0
    requires t.key == k
    ensures WithoutKey(before + [t] + after, k) == before + after
  {
    WithoutKeyAbsent(before, k);
    WithoutKeyAbsent(after, k);
    WithoutKeyConcat(before + [t], after, k);
    WithoutKeyConcat(before, [t], k);
    assert WithoutKey([t], k) == [];
  }

  /** Over unique keys, the filter removes exactly the one entry with the key, at its place. */
  lemma WithoutKeyDropsEntry(existing: seq<Tag>, i: nat)
    requires KeysUnique(existing)
    requires i < |existing|
    ensures WithoutKey(existing, existing[i].key) == existing[..i] + existing[i + 1..]
  {
    var k, before, after := existing[i].key, existing[..i], existing[i + 1..];
    assert CountKey(before, k) == 0 && CountKey(after, k) == 0 by {
      UniqueKeyAt(existing, i);
    }
    assert existing == before + [existing[i]] + after;
    WithoutKeyAround(before, existing[i], after, k);
  }

  /**
   * Append mode over unique keys with a prior entry for the key: that entry
   * leaves its place and the new tag goes to the end; the rest keep their order.
   */
  lemma AppendExistingKey(existing: seq<Tag>, i: nat, newTagVal: string)
    requires KeysUnique(existing)
    requires i < |existing|
    ensures var k := existing[i].key;
      TagSetFor(true, existing, k, newTagVal) == existing[..i] + existing[i + 1..] + [Tag(k, newTagVal)]
  {
    WithoutKeyDropsEntry(existing, i);
  }

  /** Append mode keeps a list with unique keys unique. */
  lemma AppendKeepsUnique(existing: seq<Tag>, newTagKey: string, newTagVal: string)
    requires KeysUnique(existing)
    ensures KeysUnique(TagSetFor(true, existing, newTagKey, newTagVal))
  {
    var kept := WithoutKey(existing, newTagKey);
    WithoutKeyKeepsUnique(existing, newTagKey);
    WithoutKeyMembers(existing, newTagKey);
    var r := kept + [Tag(newTagKey, newTagVal)];
    forall i, j | 0 <= i < j < |r| ensures r[i].key != r[j].key {
      assert r[i] == kept[i];
      if j < |kept| {
        assert r[j] == kept[j];
      } else {
        assert kept[i] in kept;
      }
    }
  }

  /**
   * Append mode keeps every copy of every tag whose key is not the new key,
   * so duplicates of other keys are all sent.
   */
  lemma AppendKeepsOtherDuplicates(existing: seq<Tag>, t: Tag, newTagKey: string, newTagVal: string)
    requires t.key != newTagKey
    ensures multiset(TagSetFor(true, existing, newTagKey, newTagVal))[t] == multiset(existing)[t]
  {
    AppendModeTagSet(existing, newTagKey, newTagVal);
  }
}
