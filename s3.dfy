/**
 * The S3 client as far as TagS3Object uses it: a get-tagging and a
 * set-tagging call, either of which may answer with a service error. The
 * store's own behaviour is not modelled: its replies are arbitrary, and it
 * records every request it receives and every answer it gives.
 */
module S3 {
  import opened Wrappers
  import opened Tagging

  /** An AmazonServiceException, of whatever kind. */
  datatype ServiceError = ServiceError(errorCode: string)

  /** The answer of a remote call: a value or a service error. */
  datatype Reply<T> = Ok(value: T) | Failed(error: ServiceError)

  /** GetObjectTaggingRequest(bucket, key): it names no version. */
  datatype GetTaggingRequest = GetTaggingRequest(bucket: string, key: string)

  /** SetObjectTaggingRequest: `versionId` is None for the version-less constructor. */
  datatype SetTaggingRequest = SetTaggingRequest(bucket: string, key: string, versionId: Option<string>, tagSet: seq<Tag>)

  datatype Request = GetCall(getRequest: GetTaggingRequest) | SetCall(setRequest: SetTaggingRequest)

  /** What the store answered to one call. */
  datatype Answer = GetAnswer(getReply: Reply<seq<Tag>>) | SetAnswer(setReply: Reply<()>)

  class RemoteStore {
    /** The requests received so far, in order. */
    var requests: seq<Request>
    /** The answers given so far, one per request, in order. */
    ghost var replies: seq<Answer>

    constructor ()
      ensures requests == [] && replies == []
    {
      requests := [];
      replies := [];
    }

    /** getObjectTagging: records the request and answers with any tag set or any service error. */
    method GetObjectTagging(request: GetTaggingRequest) returns (reply: Reply<seq<Tag>>)
      modifies this
      ensures requests == old(requests) + [GetCall(request)]
      ensures replies == old(replies) + [GetAnswer(reply)]
    {
      requests := requests + [GetCall(request)];
      reply :| true;
      replies := replies + [GetAnswer(reply)];
    }

    /** setObjectTagging: records the request and answers with success or any service error. */
    method SetObjectTagging(request: SetTaggingRequest) returns (reply: Reply<()>)
      modifies this
      ensures requests == old(requests) + [SetCall(request)]
      ensures replies == old(replies) + [SetAnswer(reply)]
    {
      requests := requests + [SetCall(request)];
      reply :| true;
      replies := replies + [SetAnswer(reply)];
    }
  }
}
