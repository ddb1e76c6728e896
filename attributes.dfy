/**
 * The record attributes written by TagS3Object.setTagAttributes: in replace
 * mode every attribute under "s3.tag." is removed first, then
 * "s3.tag.<tag key>" is set to the tag value.
 */
module Attributes {

  type AttributeMap = map<string, string>

  /** The namespace of the attributes that mirror applied tags. */
  const TagPrefix: string := "s3.tag."

  predicate StartsWith(s: string, prefix: string): (b: bool)
    ensures b ==> |prefix| <= |s| && forall i :: 0 <= i < |prefix| ==> s[i] == prefix[i]
  {
    |prefix| <= |s| && s[..|prefix|] == prefix
  }

  /** The attribute that mirrors the tag with key `tagKey`. */
  function TagAttributeKey(tagKey: string): (a: string)
    ensures |a| == |TagPrefix| + |tagKey| && a[..|TagPrefix|] == TagPrefix && a[|TagPrefix|..] == tagKey
  {
    TagPrefix + tagKey
  }

  /** The attributes whose names do not start with `prefix` (removeAllAttributes). */
  function WithoutPrefix(attrs: AttributeMap, prefix: string): (r: AttributeMap)
    ensures forall a :: a in r ==> a in attrs && !StartsWith(a, prefix) && r[a] == attrs[a]
    ensures forall a :: a in attrs && !StartsWith(a, prefix) ==> a in r
  {
    map a | a in attrs && !StartsWith(a, prefix) :: attrs[a]
  }

  /** The attributes after setTagAttributes. */
  function TagAttributes(attrs: AttributeMap, appendTag: bool, newTagKey: string, newTagVal: string): (r: AttributeMap)
    ensures TagAttributeKey(newTagKey) in r && r[TagAttributeKey(newTagKey)] == newTagVal
    ensures forall a :: a in r && a != TagAttributeKey(newTagKey) ==> a in attrs && r[a] == attrs[a]
  {
    var base := if appendTag then attrs else WithoutPrefix(attrs, TagPrefix);
    base + map[TagAttributeKey(newTagKey) := newTagVal]
  }

  lemma TagAttributeKeyInNamespace(tagKey: string)
    ensures StartsWith(TagAttributeKey(tagKey), TagPrefix)
  {
  }

  /**
   * Replace mode: the only attribute left under the prefix is the new tag's,
   * holding its value, and every attribute outside the prefix is untouched.
   */
  lemma ReplaceModeAttributes(attrs: AttributeMap, newTagKey: string, newTagVal: string)
    ensures var r := TagAttributes(attrs, false, newTagKey, newTagVal);
      && TagAttributeKey(newTagKey) in r
      && r[TagAttributeKey(newTagKey)] == newTagVal
      && (forall a :: a in r && StartsWith(a, TagPrefix) ==> a == TagAttributeKey(newTagKey))
      && (forall a :: !StartsWith(a, TagPrefix) ==> (a in r <==> a in attrs))
      && (forall a :: a in attrs && !StartsWith(a, TagPrefix) ==> r[a] == attrs[a])
  {
  }

  /**
   * Append mode: the new tag's attribute is added or overwritten and every
   * other attribute, inside the prefix or not, is kept with its value.
   */
  lemma AppendModeAttributes(attrs: AttributeMap, newTagKey: string, newTagVal: string)
    ensures var r := TagAttributes(attrs, true, newTagKey, newTagVal);
      && r.Keys == attrs.Keys + {TagAttributeKey(newTagKey)}
      && r[TagAttributeKey(newTagKey)] == newTagVal
      && (forall a :: a in attrs && a != TagAttributeKey(newTagKey) ==> r[a] == attrs[a])
  {
  }

  /**
   * Replace mode leaves no trace of earlier tag attributes: two records that
   * agree outside the prefix end with the same attributes.
   */
  lemma ReplaceForgetsEarlierTags(m1: AttributeMap, m2: AttributeMap, newTagKey: string, newTagVal: string)
    requires forall a :: !StartsWith(a, TagPrefix) ==> (a in m1 <==> a in m2)
    requires forall a :: a in m1 && !StartsWith(a, TagPrefix) ==> a in m2 && m1[a] == m2[a]
    ensures TagAttributes(m1, false, newTagKey, newTagVal) == TagAttributes(m2, false, newTagKey, newTagVal)
  {
  }

  /** Writing the same tag twice gives the same attributes as writing it once, in either mode. */
  lemma TagAttributesIdempotent(attrs: AttributeMap, appendTag: bool, newTagKey: string, newTagVal: string)
    ensures var once := TagAttributes(attrs, appendTag, newTagKey, newTagVal);
      TagAttributes(once, appendTag, newTagKey, newTagVal) == once
  {
  }
}
