# TagS3Object: tag merge, version choice, routing and attribute update

This project models the `TagS3Object` processor of the NiFi AWS bundle. Each
time it runs, the processor takes one record (a FlowFile) and sets a tag on an
S3 object. It then mirrors the tag onto the record's attributes and routes the
record to `success` or `failure`.

- **Append mode** (`Append Tag` true): the processor fetches the object's tags.
  It drops every entry whose key equals the new key and adds the new tag last.
- **Replace mode**: it sends the new tag alone.
- **Version**: a blank version (missing, empty or whitespace only) gives the
  version-less set request. Any other version is sent exactly as given.
- **Errors**: a service error from either remote call penalizes the record and
  routes it to failure. Its attributes stay as they were.
- **Success**: in replace mode every `s3.tag.` attribute is removed first. Then
  `s3.tag.<key>` is set to the tag value and the record goes to success.

Layout:

- `wrappers.dfy`: `Option`, for Java's nullable strings.
- `tagging.dfy`, module `Tagging`: the tag datatype, the key filter of the
  stream, and the list sent to the store (`TagSetFor`), with its lemmas.
- `blank.dfy`, module `Blank`: `StringUtils.isBlank` over Java's
  `Character.isWhitespace`.
- `attributes.dfy`, module `Attributes`: the attribute update written by
  `setTagAttributes` (`TagAttributes`), with its lemmas.
- `flowfiles.dfy`, module `FlowFiles`: the record as a class. It holds an
  attribute map, a penalized flag and the list of its transfers. Its methods
  are the session operations the processor calls on it.
- `s3.dfy`, module `S3`: the request datatypes and the remote store as a
  class. The store logs every request it receives and answers with any value
  or any service error, chosen nondeterministically.
- `tags3object.dfy`, module `TagS3Object`:
  - `Trigger` is the reference definition of one invocation, given the
    store's replies.
  - `OnTrigger` is the imperative processor. It is proved to send exactly
    `Trigger`'s requests, leave `Trigger`'s attributes and make exactly one
    transfer.

The store's replies inside `OnTrigger` come from the nondeterministic store.
The store keeps a ghost log of the answers it gives. `OnTrigger` returns the
answers as ghost out-parameters, and its postcondition says they are the
answers the store logged for the calls made. So `Trigger` is evaluated on the
store's real replies.

Where the code does not match the processor's own description:

- **Missing objects.** The capability description says a missing object routes
  to success (TagS3Object.java:54-55). The code routes every service error to
  failure. The model follows the code.

Behaviour worth knowing:

- **Duplicate keys.** The code removes only entries with the new key; it does
  not make the sent keys unique. Every copy of a tag with another key is sent
  (`AppendKeepsOtherDuplicates`). The sent list has unique keys when the
  fetched list had them (`AppendKeepsUnique`).
- **Position of a replaced tag.** A replaced entry does not keep its place. It
  leaves its position and the new tag goes last (`AppendExistingKey`).
- **Versions on the get call.** The get request carries no version
  (TagS3Object.java:130), even when a version is configured. The model sends it
  that way (`AppendModeRequests`).

## Model

| member | source | states |
|---|---|---|
| Tagging.CountKey | nifi-nar-bundles/nifi-aws-bundle/nifi-aws-processors/src/main/java/org/apache/nifi/processors/aws/s3/TagS3Object.java:134 | the count of a key is at most the length of the list |
| Tagging.WithoutKey | nifi-nar-bundles/nifi-aws-bundle/nifi-aws-processors/src/main/java/org/apache/nifi/processors/aws/s3/TagS3Object.java:134 | the filtered list is no longer than the input and no entry of it has the new key; its content and order are characterised by `WithoutKeyMultiset`, `WithoutKeyMembers`, `WithoutKeyLength` and `WithoutKeyConcat` |
| Tagging.TagSetFor | nifi-nar-bundles/nifi-aws-bundle/nifi-aws-processors/src/main/java/org/apache/nifi/processors/aws/s3/TagS3Object.java:126-137 | the list sent ends with the new tag, no earlier entry has the new key, it is at most one longer than the fetched list, and in replace mode it has one entry; characterised further by `ReplaceModeTagSet` and `AppendModeTagSet` |
| Tagging.WithoutKeyMultiset | nifi-nar-bundles/nifi-aws-bundle/nifi-aws-processors/src/main/java/org/apache/nifi/processors/aws/s3/TagS3Object.java:134 | the filter removes every entry with the new key and keeps every copy of every other entry |
| Tagging.WithoutKeyMembers | nifi-nar-bundles/nifi-aws-bundle/nifi-aws-processors/src/main/java/org/apache/nifi/processors/aws/s3/TagS3Object.java:134 | a tag is in the filtered list if and only if it was fetched and its key differs from the new key |
| Tagging.WithoutKeyLength | nifi-nar-bundles/nifi-aws-bundle/nifi-aws-processors/src/main/java/org/apache/nifi/processors/aws/s3/TagS3Object.java:134 | the filtered list is shorter by exactly the number of entries with the new key |
| Tagging.WithoutKeyConcat | nifi-nar-bundles/nifi-aws-bundle/nifi-aws-processors/src/main/java/org/apache/nifi/processors/aws/s3/TagS3Object.java:134 | filtering a concatenation is concatenating the filtered parts, so the kept entries keep their relative order |
| Tagging.WithoutKeyAbsent | nifi-nar-bundles/nifi-aws-bundle/nifi-aws-processors/src/main/java/org/apache/nifi/processors/aws/s3/TagS3Object.java:134 | a list with no entry for the key passes the filter unchanged |
| Tagging.WithoutKeyKeepsUnique | nifi-nar-bundles/nifi-aws-bundle/nifi-aws-processors/src/main/java/org/apache/nifi/processors/aws/s3/TagS3Object.java:134 | filtering a list with unique keys leaves the keys unique |
| Tagging.CountKeyConcat | nifi-nar-bundles/nifi-aws-bundle/nifi-aws-processors/src/main/java/org/apache/nifi/processors/aws/s3/TagS3Object.java:137 | the entries with a key in a concatenation are those of both parts |
| Tagging.CountKeyZero | nifi-nar-bundles/nifi-aws-bundle/nifi-aws-processors/src/main/java/org/apache/nifi/processors/aws/s3/TagS3Object.java:134 | a key is counted zero times if and only if no entry carries it |
| Tagging.ReplaceModeTagSet | nifi-nar-bundles/nifi-aws-bundle/nifi-aws-processors/src/main/java/org/apache/nifi/processors/aws/s3/TagS3Object.java:126-137 | in replace mode the list sent is exactly the new tag, whatever the object held |
| Tagging.AppendModeTagSet | nifi-nar-bundles/nifi-aws-bundle/nifi-aws-processors/src/main/java/org/apache/nifi/processors/aws/s3/TagS3Object.java:129-137 | in append mode the new tag is last and is the only entry with its key; the entries before it are the filtered fetched tags; no entry with another key is lost; the length is the old length less the entries with the key, plus one |
| Tagging.AppendNewKey | nifi-nar-bundles/nifi-aws-bundle/nifi-aws-processors/src/main/java/org/apache/nifi/processors/aws/s3/TagS3Object.java:129-137 | when no fetched entry has the key, the list sent is the fetched list followed by the new tag |
| Tagging.UniqueKeyAt | nifi-nar-bundles/nifi-aws-bundle/nifi-aws-processors/src/main/java/org/apache/nifi/processors/aws/s3/TagS3Object.java:134 | over unique keys, no entry before or after position i carries the key of entry i |
| Tagging.WithoutKeyAround | nifi-nar-bundles/nifi-aws-bundle/nifi-aws-processors/src/main/java/org/apache/nifi/processors/aws/s3/TagS3Object.java:134 | an entry with the key between two parts that have no entry with it is the only thing the filter removes; the parts are kept in order |
| Tagging.WithoutKeyDropsEntry | nifi-nar-bundles/nifi-aws-bundle/nifi-aws-processors/src/main/java/org/apache/nifi/processors/aws/s3/TagS3Object.java:134 | over unique keys, filtering out the key of entry i removes exactly that entry and keeps the rest in order |
| Tagging.AppendExistingKey | nifi-nar-bundles/nifi-aws-bundle/nifi-aws-processors/src/main/java/org/apache/nifi/processors/aws/s3/TagS3Object.java:129-137 | over unique keys, the entry with the new key is removed from its place and the new tag is added at the end; the others keep their order |
| Tagging.AppendKeepsUnique | nifi-nar-bundles/nifi-aws-bundle/nifi-aws-processors/src/main/java/org/apache/nifi/processors/aws/s3/TagS3Object.java:134-137 | append mode keeps the keys of a unique-key list unique |
| Tagging.AppendKeepsOtherDuplicates | nifi-nar-bundles/nifi-aws-bundle/nifi-aws-processors/src/main/java/org/apache/nifi/processors/aws/s3/TagS3Object.java:134 | for every tag whose key is not the new key, append mode sends exactly as many copies of it as were fetched, so duplicates of other keys all survive |
| Blank.IsWhitespace | nifi-nar-bundles/nifi-aws-bundle/nifi-aws-processors/src/main/java/org/apache/nifi/processors/aws/s3/TagS3Object.java:139 | accepts space, tab, line feed and carriage return, and never the no-break spaces U+00A0, U+2007 and U+202F |
| Blank.AllWhitespace | nifi-nar-bundles/nifi-aws-bundle/nifi-aws-processors/src/main/java/org/apache/nifi/processors/aws/s3/TagS3Object.java:139 | the character-by-character scan accepts a string if and only if every character is whitespace |
| Blank.IsBlank | nifi-nar-bundles/nifi-aws-bundle/nifi-aws-processors/src/main/java/org/apache/nifi/processors/aws/s3/TagS3Object.java:139 | a version is blank if and only if it is missing or every character of it is whitespace |
| Blank.BlankIff | nifi-nar-bundles/nifi-aws-bundle/nifi-aws-processors/src/main/java/org/apache/nifi/processors/aws/s3/TagS3Object.java:139 | a version is not blank if and only if it is present and holds a character that is not whitespace |
| Attributes.StartsWith | nifi-nar-bundles/nifi-aws-bundle/nifi-aws-processors/src/main/java/org/apache/nifi/processors/aws/s3/TagS3Object.java:164 | a name that starts with the prefix is at least as long and agrees with it character by character |
| Attributes.TagAttributeKey | nifi-nar-bundles/nifi-aws-bundle/nifi-aws-processors/src/main/java/org/apache/nifi/processors/aws/s3/TagS3Object.java:168 | the attribute name is the prefix followed by exactly the tag key |
| Attributes.WithoutPrefix | nifi-nar-bundles/nifi-aws-bundle/nifi-aws-processors/src/main/java/org/apache/nifi/processors/aws/s3/TagS3Object.java:164 | keeps exactly the attributes whose names do not start with the prefix, with their values |
| Attributes.TagAttributes | nifi-nar-bundles/nifi-aws-bundle/nifi-aws-processors/src/main/java/org/apache/nifi/processors/aws/s3/TagS3Object.java:163-169 | `s3.tag.<key>` holds the new value and every other attribute left was already there with the same value; the two modes are characterised by `ReplaceModeAttributes` and `AppendModeAttributes` |
| Attributes.TagAttributeKeyInNamespace | nifi-nar-bundles/nifi-aws-bundle/nifi-aws-processors/src/main/java/org/apache/nifi/processors/aws/s3/TagS3Object.java:164-168 | the attribute written for a tag lies under the prefix that replace mode clears |
| Attributes.ReplaceModeAttributes | nifi-nar-bundles/nifi-aws-bundle/nifi-aws-processors/src/main/java/org/apache/nifi/processors/aws/s3/TagS3Object.java:163-169 | in replace mode the only prefixed attribute left is `s3.tag.<key>`, holding the value, and every other attribute is kept with its value |
| Attributes.AppendModeAttributes | nifi-nar-bundles/nifi-aws-bundle/nifi-aws-processors/src/main/java/org/apache/nifi/processors/aws/s3/TagS3Object.java:163-169 | in append mode `s3.tag.<key>` is added or overwritten; all other attributes keep their values, and no attribute is removed |
| Attributes.ReplaceForgetsEarlierTags | nifi-nar-bundles/nifi-aws-bundle/nifi-aws-processors/src/main/java/org/apache/nifi/processors/aws/s3/TagS3Object.java:163-165 | after replace mode the attributes depend only on the unprefixed part of the old attributes |
| Attributes.TagAttributesIdempotent | nifi-nar-bundles/nifi-aws-bundle/nifi-aws-processors/src/main/java/org/apache/nifi/processors/aws/s3/TagS3Object.java:159-171 | writing the same tag's attributes twice gives what writing them once gives, in either mode |
| FlowFiles.FlowFile.constructor | nifi-nar-bundles/nifi-aws-bundle/nifi-aws-processors/src/main/java/org/apache/nifi/processors/aws/s3/TagS3Object.java:110 | a new record has the given attributes, no penalty and no transfer |
| FlowFiles.FlowFile.RemoveAllAttributes | nifi-nar-bundles/nifi-aws-bundle/nifi-aws-processors/src/main/java/org/apache/nifi/processors/aws/s3/TagS3Object.java:164 | removes exactly the attributes whose names start with the prefix; nothing else changes |
| FlowFiles.FlowFile.PutAllAttributes | nifi-nar-bundles/nifi-aws-bundle/nifi-aws-processors/src/main/java/org/apache/nifi/processors/aws/s3/TagS3Object.java:167-169 | writes every given entry over the record's and keeps the other attributes |
| FlowFiles.FlowFile.Penalize | nifi-nar-bundles/nifi-aws-bundle/nifi-aws-processors/src/main/java/org/apache/nifi/processors/aws/s3/TagS3Object.java:147 | marks the record penalized and changes nothing else |
| FlowFiles.FlowFile.Transfer | nifi-nar-bundles/nifi-aws-bundle/nifi-aws-processors/src/main/java/org/apache/nifi/processors/aws/s3/TagS3Object.java:148-154 | records one transfer to the given relationship and changes nothing else |
| S3.RemoteStore.constructor | nifi-nar-bundles/nifi-aws-bundle/nifi-aws-processors/src/main/java/org/apache/nifi/processors/aws/s3/TagS3Object.java:123 | a new store has received no request and given no answer |
| S3.RemoteStore.GetObjectTagging | nifi-nar-bundles/nifi-aws-bundle/nifi-aws-processors/src/main/java/org/apache/nifi/processors/aws/s3/TagS3Object.java:130-131 | logs the get request and the answer it gives, which is any tag list or any service error |
| S3.RemoteStore.SetObjectTagging | nifi-nar-bundles/nifi-aws-bundle/nifi-aws-processors/src/main/java/org/apache/nifi/processors/aws/s3/TagS3Object.java:144 | logs the set request and the answer it gives, which is success or any service error |
| TagS3Object.SetRequestFor | nifi-nar-bundles/nifi-aws-bundle/nifi-aws-processors/src/main/java/org/apache/nifi/processors/aws/s3/TagS3Object.java:139-143 | the set request names the object and carries the tags; it is version-less if and only if the version is missing or all whitespace, and otherwise carries exactly the given version |
| TagS3Object.SetRequestVariant | nifi-nar-bundles/nifi-aws-bundle/nifi-aws-processors/src/main/java/org/apache/nifi/processors/aws/s3/TagS3Object.java:139-143 | the request is version-qualified if and only if the version is present and holds a character that is not whitespace |
| TagS3Object.Trigger | nifi-nar-bundles/nifi-aws-bundle/nifi-aws-processors/src/main/java/org/apache/nifi/processors/aws/s3/TagS3Object.java:109-157 | one invocation sends one or two requests; it penalizes exactly when it routes to failure; on failure the attributes are unchanged; on success the last request is a set call and `s3.tag.<key>` holds the value |
| TagS3Object.ReplaceModeRequests | nifi-nar-bundles/nifi-aws-bundle/nifi-aws-processors/src/main/java/org/apache/nifi/processors/aws/s3/TagS3Object.java:126-144 | in replace mode the only request is one set call with the new tag alone; what the store would have fetched makes no difference |
| TagS3Object.AppendModeRequests | nifi-nar-bundles/nifi-aws-bundle/nifi-aws-processors/src/main/java/org/apache/nifi/processors/aws/s3/TagS3Object.java:129-144 | in append mode the first request is a version-less get. After a failed get nothing more is sent. Otherwise one set call follows, carrying the filtered fetched tags in order, then the new tag as the only entry with its key; its length is the old length less the key's entries, plus one |
| TagS3Object.RequestsNameObject | nifi-nar-bundles/nifi-aws-bundle/nifi-aws-processors/src/main/java/org/apache/nifi/processors/aws/s3/TagS3Object.java:139-144 | every set call sent targets the configured bucket and key and is version-less exactly when the version is blank |
| TagS3Object.Routing | nifi-nar-bundles/nifi-aws-bundle/nifi-aws-processors/src/main/java/org/apache/nifi/processors/aws/s3/TagS3Object.java:128-154 | failure if and only if a call that is made fails; penalized if and only if routed to failure; on failure the attributes are unchanged; a failed get sends no set call |
| TagS3Object.ReplaceModeSuccess | nifi-nar-bundles/nifi-aws-bundle/nifi-aws-processors/src/main/java/org/apache/nifi/processors/aws/s3/TagS3Object.java:152-169 | a successful replace routes to success. Afterwards `s3.tag.<key>` holds the value, it is the only prefixed attribute, and every unprefixed attribute is unchanged |
| TagS3Object.AppendModeSuccess | nifi-nar-bundles/nifi-aws-bundle/nifi-aws-processors/src/main/java/org/apache/nifi/processors/aws/s3/TagS3Object.java:152-169 | a successful append routes to success, sets `s3.tag.<key>` to the value and changes no other attribute |
| TagS3Object.AppendScenario | nifi-nar-bundles/nifi-aws-bundle/nifi-aws-processors/src/main/java/org/apache/nifi/processors/aws/s3/TagS3Object.java:129-169 | appending size=L to [color=red, size=M] sends [color=red, size=L] and sets only `s3.tag.size` |
| TagS3Object.ReplaceScenario | nifi-nar-bundles/nifi-aws-bundle/nifi-aws-processors/src/main/java/org/apache/nifi/processors/aws/s3/TagS3Object.java:126-169 | replacing with status=archived removes `s3.tag.color`, keeps other attributes, sets `s3.tag.status` and sends one tag version-less for a whitespace version |
| TagS3Object.SetTagAttributes | nifi-nar-bundles/nifi-aws-bundle/nifi-aws-processors/src/main/java/org/apache/nifi/processors/aws/s3/TagS3Object.java:159-171 | the record's attributes become `TagAttributes` of the old ones; penalty and transfers are untouched |
| TagS3Object.OnTrigger | nifi-nar-bundles/nifi-aws-bundle/nifi-aws-processors/src/main/java/org/apache/nifi/processors/aws/s3/TagS3Object.java:109-157 | no record: no request and no answer. Otherwise `fetched` and `applied` are the answers the store logged for the calls made (a get only in append mode, a set unless the get failed). For those answers, the requests logged, the final attributes and the penalty are `Trigger`'s, and the record is transferred exactly once, to `Trigger`'s route |

## Left out

- Property descriptors and their validators (TagS3Object.java:58-101). The key (1-127 characters) and value (1-255 characters) limits apply before expression evaluation, so the evaluated strings are taken as arbitrary inputs.
- Expression-language evaluation (TagS3Object.java:117-121, 160-161). Each property is evaluated once, into a field of `Properties`, and that value is used for both the request and the attribute. The source reads Tag Key and Tag Value twice, at lines 119-120 and again at lines 160-161. The two reads agree for expressions over the record's attributes, which do not change between them. They can differ for non-deterministic functions such as `${nextInt()}` or `${UUID()}`, and this model does not capture that.
- Trigger, ReplaceModeSuccess and AppendModeSuccess: the clause that `s3.tag.<key>` holds the value that was sent rests on that single evaluation. With a non-deterministic Tag Key or Tag Value expression, the attribute written can differ from the tag sent.
- The AWS client, credentials, region, proxy and SSL setup (`getClient()`). The store's real semantics are also left out: its replies are arbitrary.
- Logging and timing (`System.nanoTime`, `getLogger()`). The scheduling meaning of a penalty is also left out: only a flag is kept.
- Exceptions other than `AmazonServiceException`, such as client-side SDK errors. They leave `onTrigger` uncaught.
- The exact regular expression `^s3\.tag\..*`. It is modelled as "starts with `s3.tag.`", so its dot not matching a line terminator is not captured.
- The source of NiFi's `StringUtils.isBlank` is not among the files modelled. `Blank.IsBlank` takes its behaviour from that library: null, empty, or a loop finding that every character passes Java's `Character.isWhitespace`. The whitespace set is written out from the current Unicode tables; Java 8's older tables also count U+180E.
- Java strings are UTF-16 units, while Dafny's are Unicode scalar values. Unpaired surrogates are not represented.
- FlowFile immutability. The session returns a new FlowFile on each change; the model updates one record object in place.
