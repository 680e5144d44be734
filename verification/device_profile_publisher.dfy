/**
 * The CloudFormation custom resource that publishes the Apple device profile
 * (`dns.mobileconfig`) pointing devices at the resolver: render the template,
 * upload or delete it, and report the outcome back to CloudFormation.
 */
module DeviceProfilePublisher {
  import opened Wrappers
  import opened Text

  const ProfileFileName: string := "dns.mobileconfig"
  const ProfileContentType: string := "application/x-apple-aspen-config"
  const ResolverUrlPlaceholder: string := "##RESOLVER_URL##"
  const VersionPlaceholder: string := "##VERSION##"

  datatype RequestType = Create | Update | Delete

  /** The custom-resource request CloudFormation sends; `version` is the `Version` resource property. */
  datatype CfnRequest = CfnRequest(
    requestId: string,
    requestType: RequestType,
    responseUrl: string,
    resourceType: string,
    logicalResourceId: string,
    stackId: string,
    physicalResourceId: Option<string>,
    version: string)

  /** The status field, spelled as it is serialised. */
  datatype ResponseStatus = SUCCESS | FAILED

  /** The record sent back to CloudFormation. */
  datatype CfnResponse = CfnResponse(
    status: ResponseStatus,
    reason: Option<string>,
    physicalResourceId: string,
    stackId: string,
    requestId: string,
    logicalResourceId: string,
    noEcho: Option<bool>,
    data: Option<map<string, string>>)

  /**
   * What the function reads from its surroundings: the two environment
   * variables and the bundled template file, each `None` when absent.
   */
  datatype Environment = Environment(bucketName: Option<string>, resolverUrl: Option<string>, template: Option<string>)

  /** The one storage call a request leads to. */
  datatype StorageCall =
    | PutObject(bucket: string, key: string, contentType: string, body: string)
    | DeleteObject(bucket: string, key: string)

  /** Why a request failed. */
  datatype PublishError =
    | BucketNameNotSet
    | ResolverUrlNotSet
    | TemplateMissing
    | BucketVariableMissing
    | StorageFailed(message: string)

  /** The text of the error, as reported to CloudFormation. */
  function Describe(e: PublishError): (reason: string)
    ensures e.StorageFailed? ==> reason == e.message
    ensures !e.StorageFailed? ==> |reason| > 0
  {
    match e
    case BucketNameNotSet => "APPLE_DEVICE_PROFILE_BUCKET_NAME env var not set"
    case ResolverUrlNotSet => "RESOLVER_URL env var not set"
    case TemplateMissing => "Missing Apple device profile template file '" + ProfileFileName + "'"
    case BucketVariableMissing => "environment variable not found"
    case StorageFailed(message) => message
  }

  /** The four errors raised before any storage call have four different texts, so the reason names the cause. */
  lemma DescribeTellsEarlyErrorsApart(e: PublishError, e': PublishError)
    requires !e.StorageFailed? && !e'.StorageFailed?
    ensures Describe(e) == Describe(e') <==> e == e'
  {
    if e != e' {
      assert |Describe(e)| != |Describe(e')|;
    }
  }

  /** The template with the resolver URL substituted first and the version second. */
  function Render(template: string, resolverUrl: string, version: string): (profile: string)
    ensures Free(template, ResolverUrlPlaceholder) && Free(template, VersionPlaceholder) ==> profile == template
    ensures Free(template, ResolverUrlPlaceholder) ==> profile == ReplaceAll(template, VersionPlaceholder, version)
  {
    ReplaceAll(ReplaceAll(template, ResolverUrlPlaceholder, resolverUrl), VersionPlaceholder, version)
  }

  /** The version pass also runs over the substituted URL, so a version placeholder inside the URL is replaced too. */
  lemma RenderReplacesVersionInsideUrl(resolverUrl: string, version: string)
    ensures Render(ResolverUrlPlaceholder, resolverUrl, version) == ReplaceAll(resolverUrl, VersionPlaceholder, version)
  {
    ReplaceWhole(ResolverUrlPlaceholder, resolverUrl);
  }

  /** Rendering is splitting on each placeholder and joining with its value, one placeholder after the other. */
  lemma RenderIsSplitJoin(template: string, resolverUrl: string, version: string)
    ensures Render(template, resolverUrl, version) ==
      Join(SplitOn(Join(SplitOn(template, ResolverUrlPlaceholder), resolverUrl), VersionPlaceholder), version)
  {
    ReplaceIsSplitJoin(template, ResolverUrlPlaceholder, resolverUrl);
    ReplaceIsSplitJoin(ReplaceAll(template, ResolverUrlPlaceholder, resolverUrl), VersionPlaceholder, version);
  }

  /**
   * The storage call a request leads to, or the error that stops it before
   * any call. An upload reads the bucket variable, the resolver URL and the
   * template, in that order; a deletion reads only the bucket variable.
   */
  function Plan(request: CfnRequest, env: Environment): (r: Result<StorageCall, PublishError>)
    ensures request.requestType == Delete ==>
      r == (if env.bucketName.None? then Failure(BucketVariableMissing) else Success(DeleteObject(env.bucketName.value, ProfileFileName)))
    ensures request.requestType != Delete ==>
      && (env.bucketName.None? ==> r == Failure(BucketNameNotSet))
      && (env.bucketName.Some? && env.resolverUrl.None? ==> r == Failure(ResolverUrlNotSet))
      && (env.bucketName.Some? && env.resolverUrl.Some? && env.template.None? ==> r == Failure(TemplateMissing))
      && (r.Success? <==> env.bucketName.Some? && env.resolverUrl.Some? && env.template.Some?)
    ensures request.requestType != Delete && r.Success? ==>
      r == Success(PutObject(env.bucketName.value, ProfileFileName, ProfileContentType,
                             Render(env.template.value, env.resolverUrl.value, request.version)))
    ensures r.Success? && r.value.PutObject? ==>
      && request.requestType != Delete
      && r.value.bucket == env.bucketName.value
      && r.value.key == ProfileFileName
      && r.value.contentType == ProfileContentType
      && r.value.body == Render(env.template.value, env.resolverUrl.value, request.version)
  {
    match request.requestType
    case Create => PlanUpload(env, request.version)
    case Update => PlanUpload(env, request.version)
    case Delete =>
      match env.bucketName
      case None => Failure(BucketVariableMissing)
      case Some(bucket) => Success(DeleteObject(bucket, ProfileFileName))
  }

  /** Upload of the rendered profile. */
  function PlanUpload(env: Environment, version: string): (r: Result<StorageCall, PublishError>)
    ensures r.Success? <==> env.bucketName.Some? && env.resolverUrl.Some? && env.template.Some?
    ensures r.Success? ==> r.value.PutObject? && r.value.bucket == env.bucketName.value
    ensures r.Success? ==> r.value.body == Render(env.template.value, env.resolverUrl.value, version)
    ensures r.Failure? ==> r.error in {BucketNameNotSet, ResolverUrlNotSet, TemplateMissing}
  {
    match env.bucketName
    case None => Failure(BucketNameNotSet)
    case Some(bucket) =>
      match env.resolverUrl
      case None => Failure(ResolverUrlNotSet)
      case Some(url) =>
        match env.template
        case None => Failure(TemplateMissing)
        case Some(template) => Success(PutObject(bucket, ProfileFileName, ProfileContentType, Render(template, url, version)))
  }

  /** Create and Update publish the same content. */
  lemma CreateAndUpdateAgree(request: CfnRequest, env: Environment)
    ensures Plan(request.(requestType := Create), env) == Plan(request.(requestType := Update), env)
  {
  }

  /** Delete never reads the resolver URL or the template. */
  lemma DeleteIgnoresTemplate(request: CfnRequest, env: Environment, url: Option<string>, template: Option<string>)
    requires request.requestType == Delete
    ensures Plan(request, env) == Plan(request, env.(resolverUrl := url, template := template))
  {
  }

  /**
   * Handling one request: plan, then make the storage call, whose error (if
   * any) `storage` reports.
   */
  function HandleRequest(request: CfnRequest, env: Environment, storage: StorageCall -> Option<string>): (o: Outcome<PublishError>)
    ensures Plan(request, env).Failure? ==> o == Fail(Plan(request, env).error)
    ensures Plan(request, env).Success? ==>
      (o.Pass? <==> storage(Plan(request, env).value).None?)
    ensures o.Fail? && Plan(request, env).Success? ==> o.error == StorageFailed(storage(Plan(request, env).value).value)
  {
    match Plan(request, env)
    case Failure(e) => Fail(e)
    case Success(call) =>
      match storage(call)
      case None => Pass
      case Some(message) => Fail(StorageFailed(message))
  }

  /** An error found before the storage call does not depend on the storage at all. */
  lemma EarlyErrorsSkipStorage(request: CfnRequest, env: Environment,
                               storage: StorageCall -> Option<string>, storage': StorageCall -> Option<string>)
    requires Plan(request, env).Failure?
    ensures HandleRequest(request, env, storage) == HandleRequest(request, env, storage')
  {
  }

  /** The record reporting success for `request`. */
  function SuccessRecord(request: CfnRequest, physicalResourceId: string): (r: CfnResponse)
    ensures r.status == SUCCESS && r.reason.None?
    ensures r.physicalResourceId == physicalResourceId
    ensures r.stackId == request.stackId && r.requestId == request.requestId
    ensures r.logicalResourceId == request.logicalResourceId
    ensures r.noEcho.None? && r.data.None?
  {
    CfnResponse(SUCCESS, None, physicalResourceId, request.stackId, request.requestId, request.logicalResourceId, None, None)
  }

  /** The record reporting failure for `request`, with the error text as reason. */
  function FailureRecord(request: CfnRequest, physicalResourceId: string, reason: string): (r: CfnResponse)
    ensures r.status == FAILED && r.reason == Some(reason)
    ensures r == SuccessRecord(request, physicalResourceId).(status := FAILED, reason := Some(reason))
  {
    CfnResponse(FAILED, Some(reason), physicalResourceId, request.stackId, request.requestId, request.logicalResourceId, None, None)
  }

  /** A record and the pre-signed URL it is sent to. */
  datatype Delivery = Delivery(url: string, record: CfnResponse)

  /** One invocation: handle the request, then send exactly one record to the request's response URL. */
  function Handler(request: CfnRequest, env: Environment, storage: StorageCall -> Option<string>): (d: Delivery)
    ensures d.url == request.responseUrl
    ensures d.record.physicalResourceId == ProfileFileName
    ensures d.record.stackId == request.stackId && d.record.requestId == request.requestId
    ensures d.record.logicalResourceId == request.logicalResourceId
    ensures d.record.status == SUCCESS <==> HandleRequest(request, env, storage).Pass?
    ensures d.record.reason.None? <==> HandleRequest(request, env, storage).Pass?
    ensures HandleRequest(request, env, storage).Fail? ==>
      d.record.reason == Some(Describe(HandleRequest(request, env, storage).error))
  {
    match HandleRequest(request, env, storage)
    case Pass => Delivery(request.responseUrl, SuccessRecord(request, ProfileFileName))
    case Fail(e) => Delivery(request.responseUrl, FailureRecord(request, ProfileFileName, Describe(e)))
  }

  /** A missing bucket variable fails an upload with its own message, before anything else is read. */
  lemma MissingBucketReported(request: CfnRequest, env: Environment, storage: StorageCall -> Option<string>)
    requires request.requestType != Delete && env.bucketName.None?
    ensures Handler(request, env, storage).record ==
      FailureRecord(request, "dns.mobileconfig", "APPLE_DEVICE_PROFILE_BUCKET_NAME env var not set")
  {
  }
}
