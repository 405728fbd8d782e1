/**
 * Google Drive access (drive.py): getting a usable credential, and the checks
 * and naming rule of an upload.
 *
 * A credential is abstracted to three flags (valid, expired, has a refresh
 * token) and opaque token material. The token file either is absent, holds a
 * pickled credential, or cannot be unpickled. The refresh call and the
 * interactive authorisation flow belong to third-party libraries; they are
 * parameters here that either succeed with a result or fail.
 */
module Drive {
  import opened Wrappers
  import opened Paths
  import opened Dates
  import opened Storage

  datatype CredentialState = CredentialState(
    valid: bool,
    expired: bool,
    hasRefreshToken: bool,
    material: string)

  /** What the token file holds. */
  datatype TokenFile = Absent | Pickled(state: CredentialState) | Unreadable

  datatype DriveError =
    | ClientLibraryMissing      // RuntimeError: google-api-python-client is not installed
    | TokenUnreadable           // unpickling the token file raised
    | RefreshFailed             // creds.refresh raised
    | FlowFailed                // the interactive flow raised
    | FileNotFound(path: Path)  // FileNotFoundError before an upload
    | UploadFailed              // the Drive service call raised

  /** The three ways `authenticate` can go once it has read the token file. */
  datatype Step = KeepStored | RefreshInPlace | RunFlow

  /** What was unpickled, if anything. */
  function Loaded(file: TokenFile): Option<CredentialState> {
    if file.Pickled? then Some(file.state) else None
  }

  /** The branch `authenticate` takes for the loaded credential. */
  function Decide(loaded: Option<CredentialState>): Step {
    if loaded.Some? && loaded.value.valid then KeepStored
    else if loaded.Some? && loaded.value.expired && loaded.value.hasRefreshToken then RefreshInPlace
    else RunFlow
  }

  /**
   * Each branch and exactly when it is taken: keep a valid credential; refresh an
   * invalid one that is expired and carries a refresh token; otherwise (no token,
   * or invalid and either not expired or without a refresh token) run the flow.
   */
  lemma DecisionCases(loaded: Option<CredentialState>)
    ensures Decide(loaded) == KeepStored <==> loaded.Some? && loaded.value.valid
    ensures Decide(loaded) == RefreshInPlace <==>
      loaded.Some? && !loaded.value.valid && loaded.value.expired && loaded.value.hasRefreshToken
    ensures Decide(loaded) == RunFlow <==>
      loaded.None? || (!loaded.value.valid && (!loaded.value.expired || !loaded.value.hasRefreshToken))
  {
  }

  /** The credential `authenticate` returns, or its error, and the token file afterwards. */
  datatype AuthOutcome = AuthOutcome(result: Result<CredentialState, DriveError>, file: TokenFile)

  /**
   * `authenticate` on values. `refreshed` is the credential after a refresh
   * (None: the refresh raised); `flow` is the credential the interactive flow
   * yields (None: it raised).
   */
  function Authenticated(
    clientLibrary: bool,
    file: TokenFile,
    refreshed: Option<CredentialState>,
    flow: Option<CredentialState>): (o: AuthOutcome)
    // an error leaves the token file as it was
    ensures o.result.Failure? ==> o.file == file
    // after a success the token file holds the credential returned
    ensures o.result.Success? ==> o.file == Pickled(o.result.value)
    // the token file is rewritten only when the stored credential was not valid
    ensures o.file != file ==> Decide(Loaded(file)) != KeepStored
  {
    if !clientLibrary then AuthOutcome(Failure(ClientLibraryMissing), file)
    else if file.Unreadable? then AuthOutcome(Failure(TokenUnreadable), file)
    else
      match Decide(Loaded(file))
      case KeepStored => AuthOutcome(Success(file.state), file)
      case RefreshInPlace =>
        if refreshed.Some? then AuthOutcome(Success(refreshed.value), Pickled(refreshed.value))
        else AuthOutcome(Failure(RefreshFailed), file)
      case RunFlow =>
        if flow.Some? then AuthOutcome(Success(flow.value), Pickled(flow.value))
        else AuthOutcome(Failure(FlowFailed), file)
  }

  /** Without the client library nothing else happens, whatever the token file holds. */
  lemma MissingLibraryRaisesFirst(file: TokenFile, refreshed: Option<CredentialState>, flow: Option<CredentialState>)
    ensures Authenticated(false, file, refreshed, flow) == AuthOutcome(Failure(ClientLibraryMissing), file)
  {
  }

  /**
   * A token file that cannot be unpickled raises before any refresh or flow,
   * whatever those would give, and nothing is written.
   */
  lemma UnreadableTokenRaises(refreshed: Option<CredentialState>, flow: Option<CredentialState>)
    ensures Authenticated(true, Unreadable, refreshed, flow) == AuthOutcome(Failure(TokenUnreadable), Unreadable)
  {
  }

  /** A valid stored credential is returned as it is; neither refresh nor flow is used, the file is not rewritten. */
  lemma ValidStoredCredentialKept(stored: CredentialState, refreshed: Option<CredentialState>, flow: Option<CredentialState>)
    requires stored.valid
    ensures Authenticated(true, Pickled(stored), refreshed, flow) == AuthOutcome(Success(stored), Pickled(stored))
  {
  }

  /** With no token file the flow runs; its credential is returned and written; a refresh is never tried. */
  lemma NoTokenRunsFlow(refreshed: Option<CredentialState>, flow: Option<CredentialState>)
    ensures Authenticated(true, Absent, refreshed, flow) ==
      if flow.Some? then AuthOutcome(Success(flow.value), Pickled(flow.value))
      else AuthOutcome(Failure(FlowFailed), Absent)
  {
  }

  /** An invalid, expired credential with a refresh token is refreshed and written back; the flow is not used. */
  lemma ExpiredCredentialRefreshed(stored: CredentialState, refreshed: Option<CredentialState>, flow: Option<CredentialState>)
    requires !stored.valid && stored.expired && stored.hasRefreshToken
    ensures Authenticated(true, Pickled(stored), refreshed, flow) ==
      if refreshed.Some? then AuthOutcome(Success(refreshed.value), Pickled(refreshed.value))
      else AuthOutcome(Failure(RefreshFailed), Pickled(stored))
  {
  }

  /** An invalid credential that is not expired, or has no refresh token, is replaced by the flow's. */
  lemma UnrefreshableCredentialReplaced(stored: CredentialState, refreshed: Option<CredentialState>, flow: Option<CredentialState>)
    requires !stored.valid && (!stored.expired || !stored.hasRefreshToken)
    ensures Authenticated(true, Pickled(stored), refreshed, flow) ==
      if flow.Some? then AuthOutcome(Success(flow.value), Pickled(flow.value))
      else AuthOutcome(Failure(FlowFailed), Pickled(stored))
  {
  }

  /**
   * Once a call has returned a valid credential, the next call returns that same
   * credential from the token file without refreshing or running the flow.
   */
  lemma SecondCallReusesToken(
    file: TokenFile,
    refreshed: Option<CredentialState>, flow: Option<CredentialState>,
    refreshed2: Option<CredentialState>, flow2: Option<CredentialState>)
    requires Authenticated(true, file, refreshed, flow).result.Success?
    requires Authenticated(true, file, refreshed, flow).result.value.valid
    ensures var first := Authenticated(true, file, refreshed, flow);
      Authenticated(true, first.file, refreshed2, flow2) == first
  {
    var first := Authenticated(true, file, refreshed, flow);
    ValidStoredCredentialKept(first.result.value, refreshed2, flow2);
  }

  /** A credential object, which `refresh` updates in place. */
  class Credential {
    var valid: bool
    var expired: bool
    var hasRefreshToken: bool
    var material: string

    function State(): CredentialState
      reads this
    {
      CredentialState(valid, expired, hasRefreshToken, material)
    }

    /** A new object holding the given state, as unpickling or the flow produce. */
    constructor FromState(s: CredentialState)
      ensures State() == s
    {
      valid, expired, hasRefreshToken, material := s.valid, s.expired, s.hasRefreshToken, s.material;
    }

    /** `creds.refresh(Request())`: this same object takes the refreshed state, or nothing changes and it raises. */
    method Refresh(outcome: Option<CredentialState>) returns (ok: bool)
      modifies this
      ensures ok == outcome.Some?
      ensures State() == if ok then outcome.value else old(State())
    {
      ok := outcome.Some?;
      if ok {
        valid, expired, hasRefreshToken, material :=
          outcome.value.valid, outcome.value.expired, outcome.value.hasRefreshToken, outcome.value.material;
      }
    }
  }

  function StateOf(c: Option<Credential>): Option<CredentialState>
    reads if c.Some? then {c.value} else {}
  {
    if c.Some? then Some(c.value.State()) else None
  }

  /** The token file and `authenticate`, which reads and rewrites it. */
  class TokenStore {
    var file: TokenFile

    constructor (file: TokenFile)
      ensures this.file == file
    {
      this.file := file;
    }

    /**
     * `authenticate`. `flow` is the object the interactive flow returns (None: it raised).
     * The outcome and the new token file are those of `Authenticated`; beyond that,
     * the flow's object itself is what is returned on the flow branch, and on the
     * other branches the object is the one freshly unpickled (refreshed in place).
     */
    method Authenticate(clientLibrary: bool, refreshed: Option<CredentialState>, flow: Option<Credential>)
      returns (r: Result<Credential, DriveError>)
      modifies this
      ensures var o := Authenticated(clientLibrary, old(file), refreshed, old(StateOf(flow)));
        && file == o.file
        && r.Success? == o.result.Success?
        && (r.Success? ==> r.value.State() == o.result.value)
        && (r.Failure? ==> r.error == o.result.error)
      ensures r.Success? && Decide(Loaded(old(file))) == RunFlow ==> flow.Some? && r.value == flow.value
      ensures r.Success? && Decide(Loaded(old(file))) != RunFlow ==> fresh(r.value)
    {
      if !clientLibrary {
        return Failure(ClientLibraryMissing);
      }
      if file.Unreadable? {
        return Failure(TokenUnreadable);
      }
      var creds: Credential? := null;
      if file.Pickled? {
        creds := new Credential.FromState(file.state);
      }
      if creds == null || !creds.valid {
        if creds != null && creds.expired && creds.hasRefreshToken {
          var ok := creds.Refresh(refreshed);
          if !ok {
            return Failure(RefreshFailed);
          }
        } else {
          if flow.None? {
            return Failure(FlowFailed);
          }
          creds := flow.value;
        }
        file := Pickled(creds.State());
      }
      r := Success(creds);
    }
  }

  // ---------------------------------------------------------------------------
  // Uploads
  // ---------------------------------------------------------------------------

  /** What an upload sends: the remote object's name and the file's contents. */
  datatype DriveRequest = DriveRequest(name: string, body: string)

  /** The service's answer: the `id` field of the created object (possibly absent), or a failure. */
  datatype DriveReply = Created(id: Option<string>) | ServiceError

  /**
   * The checks `upload_to_drive` makes before it builds a service, and the request
   * it then sends: the remote object is named after the local file's base name.
   */
  function UploadRequest(clientLibrary: bool, files: map<Path, string>, path: Path): (r: Result<DriveRequest, DriveError>)
    ensures r.Success? <==> clientLibrary && path in files
    ensures r.Success? ==> r.value.name == Name(path) && r.value.body == files[path]
    ensures !clientLibrary ==> r == Failure(ClientLibraryMissing)
    ensures clientLibrary && path !in files ==> r == Failure(FileNotFound(path))
  {
    if !clientLibrary then Failure(ClientLibraryMissing)
    else if path !in files then Failure(FileNotFound(path))
    else Success(DriveRequest(Name(path), files[path]))
  }

  /** `upload_to_drive`, with the Drive service as a parameter: the id it assigns. */
  function UploadToDrive(
    clientLibrary: bool,
    files: map<Path, string>,
    path: Path,
    service: DriveRequest -> DriveReply): (r: Result<Option<string>, DriveError>)
    ensures r.Success? ==> UploadRequest(clientLibrary, files, path).Success?
    ensures r.Success? ==> service(UploadRequest(clientLibrary, files, path).value) == Created(r.value)
  {
    match UploadRequest(clientLibrary, files, path)
    case Failure(e) => Failure(e)
    case Success(request) =>
      match service(request)
      case Created(id) => Success(id)
      case ServiceError => Failure(UploadFailed)
  }

  /**
   * Conversely, once both checks pass the service's answer decides: the id of
   * the created object is returned, and a service failure propagates.
   */
  lemma UploadReturnsServiceAnswer(files: map<Path, string>, path: Path, service: DriveRequest -> DriveReply)
    requires path in files
    ensures var reply := service(DriveRequest(Name(path), files[path]));
      && (reply.Created? ==> UploadToDrive(true, files, path, service) == Success(reply.id))
      && (reply.ServiceError? ==> UploadToDrive(true, files, path, service) == Failure(UploadFailed))
  {
  }

  /** A missing library or a missing file fails before any service exists: its answer cannot matter. */
  lemma UploadChecksPrecedeService(
    clientLibrary: bool, files: map<Path, string>, path: Path,
    service1: DriveRequest -> DriveReply, service2: DriveRequest -> DriveReply)
    requires !clientLibrary || path !in files
    ensures UploadToDrive(clientLibrary, files, path, service1).Failure?
    ensures !clientLibrary ==> UploadToDrive(clientLibrary, files, path, service1) == Failure(ClientLibraryMissing)
    ensures clientLibrary && path !in files ==> UploadToDrive(clientLibrary, files, path, service1) == Failure(FileNotFound(path))
    ensures UploadToDrive(clientLibrary, files, path, service1) == UploadToDrive(clientLibrary, files, path, service2)
  {
  }

  /**
   * Uploading the file `save_entry` has just written sends a remote object
   * named `<today>.md` whose body is the entry's markdown, rendered on
   * `headingDay` (today again, unless the save straddled midnight).
   */
  lemma UploadOfSavedEntry(
    files: map<Path, string>, directory: Path, entry: DailyEntry, today: CalendarDate, headingDay: CalendarDate)
    ensures var p := EntryPath(directory, today);
      UploadRequest(true, files[p := ToMarkdown(entry, headingDay)], p)
        == Success(DriveRequest(IsoFormat(today) + ".md", ToMarkdown(entry, headingDay)))
  {
  }
}
