/**
 * The TagS3Object processor: one invocation of onTrigger on one record.
 * Trigger is the reference definition of what an invocation does for given
 * replies of the store; OnTrigger is the step-by-step processor, proved to
 * do exactly that.
 */
module TagS3Object {
  import opened Wrappers
  import opened Tagging
  import opened Blank
  import opened Attributes
  import opened FlowFiles
  import opened S3

  /** The property values of one invocation, after expression evaluation. */
  datatype Properties = Properties(
    bucket: string,
    key: string,
    version: Option<string>,
    tagKey: string,
    tagValue: string,
    appendTag: bool)

  /** What one invocation does: the requests it sends, the record's final attributes, whether it penalizes the record, and where it routes it. */
  datatype Effect = Effect(requests: seq<Request>, attributes: AttributeMap, penalized: bool, route: Relationship)

  /** The set request: version-less for a blank version, else qualified by the version as given. */
  function SetRequestFor(bucket: string, key: string, version: Option<string>, tags: seq<Tag>): (r: SetTaggingRequest)
    ensures r.bucket == bucket && r.key == key && r.tagSet == tags
    ensures r.versionId.None? <==> version.None? || forall i :: 0 <= i < |version.value| ==> IsWhitespace(version.value[i])
    ensures r.versionId.Some? ==> r.versionId == version
  {
    if IsBlank(version) then SetTaggingRequest(bucket, key, None, tags)
    else SetTaggingRequest(bucket, key, version, tags)
  }

  /**
   * One invocation on a record with attributes `attrs`, when the store answers
   * the get call with `fetched` and the set call with `applied`; a reply to a
   * call that is not made plays no part.
   */
  function Trigger(p: Properties, attrs: AttributeMap, fetched: Reply<seq<Tag>>, applied: Reply<()>): (e: Effect)
    ensures 1 <= |e.requests| <= 2
    ensures e.penalized <==> e.route == Failure
    ensures e.route == Failure ==> e.attributes == attrs
    ensures e.route == Success ==>
      && e.requests[|e.requests| - 1].SetCall?
      && TagAttributeKey(p.tagKey) in e.attributes
      && e.attributes[TagAttributeKey(p.tagKey)] == p.tagValue
  {
    var get := GetCall(GetTaggingRequest(p.bucket, p.key));
    if p.appendTag && fetched.Failed? then
      Effect([get], attrs, true, Failure)
    else
      var existing := if p.appendTag then fetched.value else [];
      var tags := TagSetFor(p.appendTag, existing, p.tagKey, p.tagValue);
      var requests := (if p.appendTag then [get] else []) + [SetCall(SetRequestFor(p.bucket, p.key, p.version, tags))];
      if applied.Failed? then
        Effect(requests, attrs, true, Failure)
      else
        Effect(requests, TagAttributes(attrs, p.appendTag, p.tagKey, p.tagValue), false, Success)
  }

  /** The set request is version-qualified exactly when the version holds a character that is not whitespace. */
  lemma SetRequestVariant(bucket: string, key: string, version: Option<string>, tags: seq<Tag>)
    ensures var r := SetRequestFor(bucket, key, version, tags);
      r.versionId.Some? <==> version.Some? && exists i :: 0 <= i < |version.value| && !IsWhitespace(version.value[i])
  {
  }

  /** Replace mode: no get call, one set call carrying the new tag alone, whatever the store would have fetched. */
  lemma ReplaceModeRequests(p: Properties, attrs: AttributeMap, fetched: Reply<seq<Tag>>, applied: Reply<()>)
    requires !p.appendTag
    ensures var e := Trigger(p, attrs, fetched, applied);
      && e.requests == [SetCall(SetRequestFor(p.bucket, p.key, p.version, [Tag(p.tagKey, p.tagValue)]))]
      && forall other: Reply<seq<Tag>> :: Trigger(p, attrs, other, applied) == e
  {
    ReplaceModeTagSet([], p.tagKey, p.tagValue);
  }

  /**
   * Append mode: the first call fetches the object's tags (with no version);
   * if it fails nothing else is sent, otherwise the set call carries the
   * fetched tags without the new key, in order, then the new tag.
   */
  lemma AppendModeRequests(p: Properties, attrs: AttributeMap, fetched: Reply<seq<Tag>>, applied: Reply<()>)
    requires p.appendTag
    ensures var e := Trigger(p, attrs, fetched, applied);
      && |e.requests| >= 1
      && e.requests[0] == GetCall(GetTaggingRequest(p.bucket, p.key))
      && (fetched.Failed? ==> |e.requests| == 1)
      && (fetched.Ok? ==>
            && |e.requests| == 2
            && e.requests[1].SetCall?
            && var tags := e.requests[1].setRequest.tagSet;
            && tags[..|tags| - 1] == WithoutKey(fetched.value, p.tagKey)
            && tags[|tags| - 1] == Tag(p.tagKey, p.tagValue)
            && CountKey(tags, p.tagKey) == 1
            && |tags| == |fetched.value| - CountKey(fetched.value, p.tagKey) + 1
            && (forall t: Tag :: t.key != p.tagKey ==> multiset(tags)[t] == multiset(fetched.value)[t]))
  {
    if fetched.Ok? {
      AppendModeTagSet(fetched.value, p.tagKey, p.tagValue);
    }
  }

  /** Every set request sent targets the configured object and is version-less exactly when the version is blank. */
  lemma RequestsNameObject(p: Properties, attrs: AttributeMap, fetched: Reply<seq<Tag>>, applied: Reply<()>)
    ensures var e := Trigger(p, attrs, fetched, applied);
      forall i :: 0 <= i < |e.requests| && e.requests[i].SetCall? ==>
        var r := e.requests[i].setRequest;
        && r.bucket == p.bucket && r.key == p.key
        && (r.versionId.None? <==> p.version.None? || forall j :: 0 <= j < |p.version.value| ==> IsWhitespace(p.version.value[j]))
        && (r.versionId.Some? ==> r.versionId == p.version)
  {
  }

  /**
   * Routing: the record goes to failure exactly when a call that is made
   * fails; a failed record is penalized and keeps its attributes, a
   * successful one is not penalized. A failed get is followed by no set call.
   */
  lemma Routing(p: Properties, attrs: AttributeMap, fetched: Reply<seq<Tag>>, applied: Reply<()>)
    ensures var e := Trigger(p, attrs, fetched, applied);
      && (e.route == Failure <==> (p.appendTag && fetched.Failed?) || applied.Failed?)
      && (e.penalized <==> e.route == Failure)
      && (e.route == Failure ==> e.attributes == attrs)
      && (p.appendTag && fetched.Failed? ==> forall i :: 0 <= i < |e.requests| ==> !e.requests[i].SetCall?)
  {
  }

  /** A successful replace removes every other tag attribute and leaves the attributes outside the prefix alone. */
  lemma ReplaceModeSuccess(p: Properties, attrs: AttributeMap, fetched: Reply<seq<Tag>>, applied: Reply<()>)
    requires !p.appendTag && applied.Ok?
    ensures var e := Trigger(p, attrs, fetched, applied);
      && e.route == Success
      && TagAttributeKey(p.tagKey) in e.attributes
      && e.attributes[TagAttributeKey(p.tagKey)] == p.tagValue
      && (forall a :: a in e.attributes && StartsWith(a, TagPrefix) ==> a == TagAttributeKey(p.tagKey))
      && (forall a :: !StartsWith(a, TagPrefix) ==> (a in e.attributes <==> a in attrs))
      && (forall a :: a in attrs && !StartsWith(a, TagPrefix) ==> e.attributes[a] == attrs[a])
  {
  }

  /** A successful append sets the new tag's attribute and changes nothing else. */
  lemma AppendModeSuccess(p: Properties, attrs: AttributeMap, fetched: Reply<seq<Tag>>, applied: Reply<()>)
    requires p.appendTag && fetched.Ok? && applied.Ok?
    ensures var e := Trigger(p, attrs, fetched, applied);
      && e.route == Success
      && e.attributes.Keys == attrs.Keys + {TagAttributeKey(p.tagKey)}
      && e.attributes[TagAttributeKey(p.tagKey)] == p.tagValue
      && (forall a :: a in attrs && a != TagAttributeKey(p.tagKey) ==> e.attributes[a] == attrs[a])
  {
  }

  /** Appending size=L to [color=red, size=M]: the set call carries [color=red, size=L]. */
  lemma AppendScenario()
    ensures var e := Trigger(Properties("bucket", "object", None, "size", "L", true), map[],
                             Ok([Tag("color", "red"), Tag("size", "M")]), Ok(()));
      && e.requests == [GetCall(GetTaggingRequest("bucket", "object")),
                        SetCall(SetTaggingRequest("bucket", "object", None, [Tag("color", "red"), Tag("size", "L")]))]
      && e.attributes == map["s3.tag.size" := "L"]
      && e.route == Success
  {
    var prior := [Tag("color", "red"), Tag("size", "M")];
    assert WithoutKey(prior, "size") == [Tag("color", "red")] by {
      assert prior[1..] == [Tag("size", "M")];
      assert "color" != "size" by { assert "color"[0] != "size"[0]; }
    }
    assert TagSetFor(true, prior, "size", "L") == [Tag("color", "red"), Tag("size", "L")];
    assert TagAttributeKey("size") == "s3.tag.size";
  }

  /** Replacing with status=archived: s3.tag.color is removed, s3.tag.status is set, one tag is sent. */
  lemma ReplaceScenario()
    ensures var e := Trigger(Properties("bucket", "object", Some(" "), "status", "archived", false),
                             map["s3.tag.color" := "red", "filename" := "a.txt"],
                             Failed(ServiceError("NoSuchKey")), Ok(()));
      && e.requests == [SetCall(SetTaggingRequest("bucket", "object", None, [Tag("status", "archived")]))]
      && e.attributes == map["filename" := "a.txt", "s3.tag.status" := "archived"]
      && e.route == Success
  {
    var attrs := map["s3.tag.color" := "red", "filename" := "a.txt"];
    var tags := [Tag("status", "archived")];
    assert TagAttributes(attrs, false, "status", "archived") == map["filename" := "a.txt", "s3.tag.status" := "archived"] by {
      assert WithoutPrefix(attrs, TagPrefix) == map["filename" := "a.txt"] by {
        assert StartsWith("s3.tag.color", TagPrefix) by {
          assert "s3.tag.color"[..|TagPrefix|] == TagPrefix;
        }
        assert !StartsWith("filename", TagPrefix) by {
          assert "filename"[..|TagPrefix|][0] != TagPrefix[0];
        }
      }
      assert TagAttributeKey("status") == "s3.tag.status";
    }
    assert SetRequestFor("bucket", "object", Some(" "), tags) == SetTaggingRequest("bucket", "object", None, tags) by {
      assert IsBlank(Some(" ")) by {
        assert AllWhitespace(" "[1..]);
      }
    }
    assert TagSetFor(false, [], "status", "archived") == tags;
  }

  /** setTagAttributes: in replace mode clear the tag attributes, then put the new tag's. */
  method SetTagAttributes(p: Properties, flowFile: FlowFile)
    modifies flowFile
    ensures flowFile.attributes == TagAttributes(old(flowFile.attributes), p.appendTag, p.tagKey, p.tagValue)
    ensures flowFile.penalized == old(flowFile.penalized) && flowFile.transfers == old(flowFile.transfers)
  {
    if !p.appendTag {
      flowFile.RemoveAllAttributes(TagPrefix);
    }
    var tagMap := map[TagPrefix + p.tagKey := p.tagValue];
    flowFile.PutAllAttributes(tagMap);
    assert flowFile.attributes == TagAttributes(old(flowFile.attributes), p.appendTag, p.tagKey, p.tagValue);
  }

  /**
   * onTrigger. With no record nothing is sent and nothing routed. Otherwise
   * `fetched` and `applied` are the answers the store logged for the calls
   * made, and through Trigger they determine the requests appended to the
   * store's log, the record's attributes, its penalty, and exactly one
   * transfer. In replace mode no get is made and `fetched` plays no part.
   */
  method OnTrigger(flowFile: FlowFile?, p: Properties, store: RemoteStore)
    returns (ghost fetched: Reply<seq<Tag>>, ghost applied: Reply<()>)
    modifies flowFile, store
    ensures flowFile == null ==> store.requests == old(store.requests) && store.replies == old(store.replies)
    ensures flowFile != null ==>
      var e := Trigger(p, old(flowFile.attributes), fetched, applied);
      && store.requests == old(store.requests) + e.requests
      && store.replies == old(store.replies)
           + (if p.appendTag then [GetAnswer(fetched)] else [])
           + (if p.appendTag && fetched.Failed? then [] else [SetAnswer(applied)])
      && flowFile.attributes == e.attributes
      && flowFile.penalized == (old(flowFile.penalized) || e.penalized)
      && flowFile.transfers == old(flowFile.transfers) + [e.route]
  {
    fetched, applied := Ok([]), Ok(());
    if flowFile == null {
      return;
    }
    var tags: seq<Tag> := [];
    if p.appendTag {
      var res := store.GetObjectTagging(GetTaggingRequest(p.bucket, p.key));
      fetched := res;
      if res.Failed? {
        flowFile.Penalize();
        flowFile.Transfer(Failure);
        return;
      }
      tags := WithoutKey(res.value, p.tagKey);
    }
    tags := tags + [Tag(p.tagKey, p.tagValue)];
    var r: SetTaggingRequest;
    if IsBlank(p.version) {
      r := SetTaggingRequest(p.bucket, p.key, None, tags);
    } else {
      r := SetTaggingRequest(p.bucket, p.key, p.version, tags);
    }
    var res := store.SetObjectTagging(r);
    applied := res;
    if res.Failed? {
      flowFile.Penalize();
      flowFile.Transfer(Failure);
      return;
    }
    SetTagAttributes(p, flowFile);
    flowFile.Transfer(Success);
  }
}
