/** The request handlers of routes.py as methods of one in-memory store holding every table
    and the session. Each method performs the handler's steps on the fields and is proved
    against the corresponding function of Accounts or Logistics. */
module Routes {
  import opened Common
  import opened Accounts
  import opened Logistics
  import Forms

  /** Outcome of a create handler behind `@login_required`. */
  datatype CreateOutcome = LoginRequired | FormRejected | Created(id: nat)

  /** The three figures of the dashboard. */
  datatype Stats = Stats(artifacts: nat, professionals: nat, pendingTransports: nat)

  class Store {
    var users: seq<User>
    var artifacts: seq<Artifact>
    var professionals: seq<Professional>
    var transports: seq<Transport>
    var scans: seq<Scan>
    /** The id the login session carries, if any. */
    var session: Option<nat>
    const defaults: ColumnDefaults

    /** Sequential ids in every table, unique e-mails, and every reference pointing at a row
        that exists. */
    ghost predicate Valid()
      reads this
    {
      UsersValid(users)
      && ArtifactsNumbered(artifacts)
      && (forall i :: 0 <= i < |artifacts| ==> 1 <= artifacts[i].userId <= |users|)
      && (forall i :: 0 <= i < |professionals| ==> professionals[i].id == i + 1)
      && (forall i :: 0 <= i < |transports| ==>
            transports[i].id == i + 1 && 1 <= transports[i].artifactId <= |artifacts|)
      && (forall i :: 0 <= i < |scans| ==>
            scans[i].id == i + 1 && 1 <= scans[i].artifactId <= |artifacts|)
    }

    /** A store over an existing users table (for instance one holding a seeded administrator)
        and empty catalog tables, with nobody logged in. */
    constructor (seed: seq<User>, defaults: ColumnDefaults)
      requires UsersValid(seed)
      ensures Valid()
      ensures users == seed && artifacts == [] && professionals == [] && transports == [] && scans == []
      ensures session == None && this.defaults == defaults
    {
      users := seed;
      artifacts, professionals, transports, scans := [], [], [], [];
      session := None;
      this.defaults := defaults;
    }

    /** `login`: the users table is never written; the session changes only on success. */
    method Login(f: Forms.LoginFields, isEmail: string -> bool, matches: (Hash, string) -> bool)
      returns (out: LoginOutcome)
      requires Valid()
      modifies this`session
      ensures Valid()
      ensures (out, session) == LoginStep(users, old(session), f, isEmail, matches)
    {
      if CurrentUser(users, session).Some? {
        return AlreadyAuthenticated;
      }
      if !Forms.LoginValid(f, isEmail) {
        return LoginFormRejected;
      }
      var found := Find(users, ByEmail(f.email));
      if found.Some? && matches(users[found.value].passwordHash, f.password) {
        var user := users[found.value];
        if user.isActiveUser {
          session := Some(user.id);
          out := LoggedIn(user.id);
        } else {
          out := AccountDeactivated;
        }
      } else {
        out := BadCredentials;
      }
    }

    /** `logout`: behind `@login_required`, so an anonymous request changes nothing. */
    method Logout()
      requires Valid()
      modifies this`session
      ensures Valid()
      ensures session == if CurrentUser(users, old(session)).Some? then None else old(session)
    {
      if CurrentUser(users, session).Some? {
        session := None;
      }
    }

    /** `register`: a duplicate e-mail leaves the table as it was; otherwise exactly one user
        is appended, with the hash of the given password and the table's default flags. */
    method Register(f: Forms.RegisterFields, isEmail: string -> bool, hash: string -> Hash)
      returns (out: RegisterOutcome)
      requires Valid()
      modifies this`users
      ensures Valid()
      ensures (out, users) == RegisterStep(old(users), f, isEmail, hash, defaults)
    {
      RegisterKeepsUsersValid(users, f, isEmail, hash, defaults);
      if !Forms.RegisterValid(f, isEmail) {
        return RegisterFormRejected;
      }
      var existing := Find(users, ByEmail(f.email));
      if existing.Some? {
        return EmailTaken;
      }
      var user := User(|users| + 1, f.username, f.email, hash(f.password),
                       defaults.isActiveUser, defaults.isAdmin);
      users := users + [user];
      out := Registered(user.id);
    }

    /** `dashboard`: the number of artifacts, of professionals and of pending transports. */
    method Dashboard() returns (stats: Option<Stats>)
      requires Valid()
      ensures stats.None? <==> CurrentUser(users, session).None?
      ensures stats.Some? ==> stats.value.artifacts == |artifacts|
      ensures stats.Some? ==> stats.value.professionals == |professionals|
      ensures stats.Some? ==> stats.value.pendingTransports == PendingCount(transports)
    {
      if CurrentUser(users, session).None? {
        return None;
      }
      stats := Some(Stats(|artifacts|, |professionals|, PendingCount(transports)));
    }

    /** `catalogar_novo`: `token` is the hex text of the fresh UUID; `photoPath` and
        `modelPath` are where the upload layer stored the two files. */
    method CatalogArtifact(f: Forms.ArtifactFields, token: string, photoPath: string, modelPath: string)
      returns (out: CreateOutcome)
      requires Valid()
      modifies this`artifacts
      ensures Valid()
      ensures var me := CurrentUser(users, session);
        var rec := if me.Some? then ArtifactRecord(|old(artifacts)|, f, users[me.value].id, token, photoPath, modelPath) else None;
        out == (if me.None? then LoginRequired else if rec.None? then FormRejected else Created(rec.value.id))
        && artifacts == if out.Created? then old(artifacts) + [rec.value] else old(artifacts)
    {
      var me := CurrentUser(users, session);
      if me.None? {
        return LoginRequired;
      }
      if !Forms.ArtifactValid(f) {
        return FormRejected;
      }
      var artifact := Artifact(
        |artifacts| + 1, f.name, Forms.EntryValue(f.discoveryDate), f.originLocation,
        f.artifactType.value, f.conservationState.value, f.observations, users[me.value].id,
        CatalogCode(token), None, None);
      if Forms.FileUploaded(f.photo) {
        artifact := artifact.(photoPath := Some(photoPath));
      }
      if Forms.FileUploaded(f.model3d) {
        artifact := artifact.(model3dPath := Some(modelPath));
      }
      artifacts := artifacts + [artifact];
      out := Created(artifact.id);
    }

    /** `adicionar_profissional`; `photoPath` is where the upload layer stored the photo. */
    method AddProfessional(f: Forms.ProfessionalFields, photoPath: string) returns (out: CreateOutcome)
      requires Valid()
      modifies this`professionals
      ensures Valid()
      ensures var rec := ProfessionalRecord(|old(professionals)|, f, photoPath);
        out == (if CurrentUser(users, session).None? then LoginRequired
                else if rec.None? then FormRejected else Created(rec.value.id))
        && professionals == if out.Created? then old(professionals) + [rec.value] else old(professionals)
    {
      if CurrentUser(users, session).None? {
        return LoginRequired;
      }
      if !Forms.ProfessionalValid(f) {
        return FormRejected;
      }
      var professional := Professional(
        |professionals| + 1, f.name, Forms.EntryValue(f.age), f.specialization,
        f.description, f.experience, None);
      if Forms.FileUploaded(f.profilePhoto) {
        professional := professional.(profilePhoto := Some(photoPath));
      }
      professionals := professionals + [professional];
      out := Created(professional.id);
    }

    /** `transporte`: the choice list is rebuilt from all artifacts before validation, so a
        recorded transport always names an existing artifact. */
    method RecordTransport(f: Forms.TransportFields) returns (out: CreateOutcome)
      requires Valid()
      modifies this`transports
      ensures Valid()
      ensures var rec := TransportRecord(artifacts, |old(transports)|, f);
        out == (if CurrentUser(users, session).None? then LoginRequired
                else if rec.None? then FormRejected else Created(rec.value.id))
        && transports == if out.Created? then old(transports) + [rec.value] else old(transports)
    {
      if CurrentUser(users, session).None? {
        return LoginRequired;
      }
      var choices := ArtifactChoices(artifacts);
      if !Forms.TransportValid(f, choices) {
        return FormRejected;
      }
      var transport := Transport(
        |transports| + 1, f.artifactId.value, f.originLocation, f.destinationLocation,
        Forms.EntryValue(f.transportDate), f.responsiblePerson, f.status.value, f.notes);
      ChoicesOfferExactlyArtifacts(artifacts, transport.artifactId);
      HasArtifactNumbered(artifacts, transport.artifactId);
      transports := transports + [transport];
      out := Created(transport.id);
    }

    /** `scanner_3d`: as `transporte`, plus the stored file's path and the size the file system
        reports for it. */
    method RecordScan(f: Forms.ScanFields, filePath: string, fileSize: Option<nat>)
      returns (out: CreateOutcome)
      requires Valid()
      modifies this`scans
      ensures Valid()
      ensures var rec := ScanRecord(artifacts, |old(scans)|, f, filePath, fileSize);
        out == (if CurrentUser(users, session).None? then LoginRequired
                else if rec.None? then FormRejected else Created(rec.value.id))
        && scans == if out.Created? then old(scans) + [rec.value] else old(scans)
    {
      if CurrentUser(users, session).None? {
        return LoginRequired;
      }
      var choices := ArtifactChoices(artifacts);
      if !Forms.ScanValid(f, choices) {
        return FormRejected;
      }
      var scan := Scan(
        |scans| + 1, f.artifactId.value, f.scannerType, f.resolution, f.notes, None, None);
      if Forms.FileUploaded(f.scanFile) {
        scan := scan.(filePath := Some(filePath));
        if fileSize.Some? {
          scan := scan.(fileSize := fileSize);
        }
      }
      ChoicesOfferExactlyArtifacts(artifacts, scan.artifactId);
      HasArtifactNumbered(artifacts, scan.artifactId);
      scans := scans + [scan];
      out := Created(scan.id);
    }

    /** `admin`: the users table, shown to administrators only. */
    method AdminUsers() returns (listing: Option<seq<User>>)
      requires Valid()
      ensures listing.Some? <==> IsAdminSession(users, session)
      ensures listing.Some? ==> listing.value == users
    {
      var me := CurrentUser(users, session);
      if me.None? || !users[me.value].isAdmin {
        return None;
      }
      listing := Some(users);
    }

    /** `toggle_user_status`. */
    method ToggleUserStatus(target: nat) returns (out: ToggleOutcome)
      requires Valid()
      modifies this`users
      ensures Valid()
      ensures (out, users) == ToggleStep(old(users), session, target, ActiveFlag)
    {
      out := ToggleFlag(target, ActiveFlag);
    }

    /** `toggle_admin_status`. */
    method ToggleAdminStatus(target: nat) returns (out: ToggleOutcome)
      requires Valid()
      modifies this`users
      ensures Valid()
      ensures (out, users) == ToggleStep(old(users), session, target, AdminFlag)
    {
      out := ToggleFlag(target, AdminFlag);
    }

    /** The steps both toggle handlers share: the admin gate, `get_or_404`, the self-protection
        rule, and the flip of one flag on the target's record. */
    method ToggleFlag(target: nat, flag: Flag) returns (out: ToggleOutcome)
      requires Valid()
      modifies this`users
      ensures Valid()
      ensures (out, users) == ToggleStep(old(users), session, target, flag)
    {
      ToggleKeepsUsersValid(users, session, target, flag);
      var me := CurrentUser(users, session);
      if me.None? {
        return NotAuthenticated;
      }
      if !users[me.value].isAdmin {
        return AccessDenied;
      }
      var found := Find(users, ById(target));
      if found.None? {
        return NotFound;
      }
      var user := users[found.value];
      if user.id == users[me.value].id {
        return SelfToggleRefused;
      }
      match flag {
        case ActiveFlag => user := user.(isActiveUser := !user.isActiveUser);
        case AdminFlag => user := user.(isAdmin := !user.isAdmin);
      }
      users := users[found.value := user];
      out := Toggled(user.id, FlagOf(user, flag));
    }
  }
}
