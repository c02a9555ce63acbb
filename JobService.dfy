/**
 * The web console's `JobService`: it remembers the coordinator's base URL,
 * without trailing '/', and builds the URL of every request to the
 * coordinator from it. A request is modelled by its verb and URL; sending it
 * is not modelled. The `Error` that `api` throws is modelled as a
 * `Runtime` error carrying the same message.
 */
module JobServices {
  import opened Wrappers
  import opened JavaInt
  import opened JavaString

  datatype Verb = Get | Delete | Post

  datatype Request = Request(verb: Verb, url: string)

  const NOT_SET := "Coordinator URL not set"

  /** `url.replace(/\/+$/, '')`: the URL without the run of '/' it ends with. */
  function StripTrailingSlashes(url: string): (r: string)
    ensures |r| <= |url| && r == url[..|r|]
    ensures r == "" || r[|r| - 1] != '/'
    ensures forall i :: |r| <= i < |url| ==> url[i] == '/'
  {
    if |url| > 0 && url[|url| - 1] == '/' then StripTrailingSlashes(url[..|url| - 1]) else url
  }

  /** A URL already without a trailing '/' is left as it is. */
  lemma StripUnchanged(url: string)
    requires url == "" || url[|url| - 1] != '/'
    ensures StripTrailingSlashes(url) == url
  {
  }

  /** Stripping twice is stripping once. */
  lemma StripIdempotent(url: string)
    ensures StripTrailingSlashes(StripTrailingSlashes(url)) == StripTrailingSlashes(url)
  {
    StripUnchanged(StripTrailingSlashes(url));
  }

  /** Only a URL made of '/' alone (or nothing) strips to the empty string. */
  lemma StripEmpty(url: string)
    ensures StripTrailingSlashes(url) == "" <==> forall i :: 0 <= i < |url| ==> url[i] == '/'
  {
    var r := StripTrailingSlashes(url);
    if r != "" {
      assert url[|r| - 1] == r[|r| - 1] != '/';
    }
  }

  /** Adding '/' at the end of a URL does not change where it points. */
  lemma {:induction false} StripIgnoresAddedSlashes(url: string, slashes: nat)
    ensures StripTrailingSlashes(url + seq(slashes, _ => '/')) == StripTrailingSlashes(url)
  {
    if slashes > 0 {
      var longer := url + seq(slashes, _ => '/');
      assert longer[|longer| - 1] == '/';
      assert longer[..|longer| - 1] == url + seq(slashes - 1, _ => '/');
      StripIgnoresAddedSlashes(url, slashes - 1);
    } else {
      assert url + seq(slashes, _ => '/') == url;
    }
  }

  /** `/jobs/{id}`, with the id written in decimal. */
  function JobPath(id: int): (p: string)
    ensures StartsWith(p, "/jobs/") && p[|"/jobs/"|..] == IntToString(id)
  {
    "/jobs/" + IntToString(id)
  }

  /** `/jobs/{id}/progress`. */
  function ProgressPath(id: int): (p: string)
    ensures StartsWith(p, JobPath(id)) && p[|JobPath(id)|..] == "/progress"
  {
    JobPath(id) + "/progress"
  }

  /** The id in a job's path reads back as that id. */
  lemma JobPathRoundTrip(id: int)
    requires IsInt32(id)
    ensures ParseInt(JobPath(id)[|"/jobs/"|..]) == Some(id)
  {
    IntStringRoundTrip(id);
  }

  class JobService {
    /** The coordinator's base URL; empty until one is set. */
    var coordinatorUrl: string

    constructor ()
      ensures coordinatorUrl == ""
    {
      coordinatorUrl := "";
    }

    /** `setCoordinatorUrl`: remembers `url` without its trailing '/'. */
    method SetCoordinatorUrl(url: string)
      modifies this
      ensures coordinatorUrl == StripTrailingSlashes(url)
    {
      coordinatorUrl := StripTrailingSlashes(url);
    }

    /** `api`: the base URL followed by `path`, or the error raised when no base URL is set. */
    function Api(path: string): (r: Result<string>)
      reads this
      ensures coordinatorUrl == "" <==> r == Err(Runtime(NOT_SET))
      ensures r.Ok? ==> StartsWith(r.value, coordinatorUrl) && r.value[|coordinatorUrl|..] == path
    {
      if coordinatorUrl == "" then Err(Runtime(NOT_SET))
      else
        var url := coordinatorUrl + path;
        assert url[..|coordinatorUrl|] == coordinatorUrl && url[|coordinatorUrl|..] == path;
        Ok(url)
    }

    /** The request with that verb to the URL `api` builds for `path`. */
    function Send(verb: Verb, path: string): Result<Request>
      reads this
    {
      match Api(path)
      case Ok(url) => Ok(Request(verb, url))
      case Err(e) => Err(e)
    }

    /** `getJobs`: GET `/jobs`. */
    function GetJobs(): Result<Request>
      reads this
    {
      Send(Get, "/jobs")
    }

    /** `deleteJob`: DELETE `/jobs/{id}`. */
    function DeleteJob(id: int): Result<Request>
      reads this
    {
      Send(Delete, JobPath(id))
    }

    /** `getJobInfo`: GET `/jobs/{id}`. */
    function GetJobInfo(id: int): Result<Request>
      reads this
    {
      Send(Get, JobPath(id))
    }

    /** `getProgress`: GET `/jobs/{id}/progress`. */
    function GetProgress(id: int): Result<Request>
      reads this
    {
      Send(Get, ProgressPath(id))
    }

    /** `uploadJob`: POST `/jobs`; the request body is not modelled. */
    function UploadJob(): Result<Request>
      reads this
    {
      Send(Post, "/jobs")
    }
  }

  /**
   * Once a URL with something other than '/' in it is set, every request goes
   * to that URL without its trailing '/', followed by the request's path
   * (which starts with '/'), so no "//" appears where the two meet.
   */
  lemma RequestsAfterSet(s: JobService, url: string, path: string)
    requires s.coordinatorUrl == StripTrailingSlashes(url)
    requires exists i :: 0 <= i < |url| && url[i] != '/'
    requires StartsWith(path, "/")
    ensures s.Api(path).Ok?
    ensures var u := s.Api(path).value;
      u == StripTrailingSlashes(url) + path && u[|s.coordinatorUrl| - 1] != '/'
  {
    StripEmpty(url);
  }

  /** With no URL, or one made only of '/', every request fails with the same error. */
  lemma RequestsWithoutUrl(s: JobService, url: string, path: string)
    requires s.coordinatorUrl == StripTrailingSlashes(url)
    requires forall i :: 0 <= i < |url| ==> url[i] == '/'
    ensures s.Api(path) == Err(Runtime(NOT_SET))
  {
    StripEmpty(url);
  }

  /**
   * The five requests, once a base URL with something other than '/' in it
   * is set: the verb and the path each operation uses, after that URL without
   * its trailing '/'.
   */
  lemma EndpointRequests(s: JobService, url: string, id: int)
    requires s.coordinatorUrl == StripTrailingSlashes(url)
    requires exists i :: 0 <= i < |url| && url[i] != '/'
    ensures var base := StripTrailingSlashes(url);
      && s.GetJobs() == Ok(Request(Get, base + "/jobs"))
      && s.UploadJob() == Ok(Request(Post, base + "/jobs"))
      && s.GetJobInfo(id) == Ok(Request(Get, base + JobPath(id)))
      && s.DeleteJob(id) == Ok(Request(Delete, base + JobPath(id)))
      && s.GetProgress(id) == Ok(Request(Get, base + ProgressPath(id)))
  {
    StripEmpty(url);
    assert s.coordinatorUrl != "";
  }

  /** Without a usable base URL, every request fails with the error `api` raises. */
  lemma EndpointsWithoutUrl(s: JobService, url: string, id: int)
    requires s.coordinatorUrl == StripTrailingSlashes(url)
    requires forall i :: 0 <= i < |url| ==> url[i] == '/'
    ensures s.GetJobs() == s.UploadJob() == s.GetJobInfo(id) == s.DeleteJob(id) == s.GetProgress(id) == Err(Runtime(NOT_SET))
  {
    StripEmpty(url);
  }
}
