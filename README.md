# LAARI archaeological collection manager — a Dafny model of its decision logic

The application is a small Flask site for an archaeology lab. It manages user accounts,
catalogues artifacts under a generated `LAARI-XXXXXXXX` code, keeps a directory of
professionals, and logs artifact transports and 3D scans. This project models what its
request handlers (`routes.py`) and form declarations (`forms.py`) decide. The model works
over an in-memory store: there is no database, no HTTP and no file system.

The model has seven modules:

- `Common` (common.dfy): `Option` and the `Date` a date field yields.
- `Text` (text.dfy): the Python string operations the code uses. `str.isspace()` is
  modelled on every character. `str.lower()` and `str.upper()` are modelled on the ASCII
  letters only.
- `Uploads` (uploads.dfy): `allowed_file`, the test on the text after the last `.`.
  A lemma proves it equal to an independent reference reading.
- `Forms` (forms.dfy): the form library's validators (`DataRequired`, `Length`, `Optional`,
  `SelectField` choices, `FileAllowed`) and one validity predicate per form. The choice
  sets and allow-lists are copied from the declarations. A lemma shows that, for the
  dot-free allow-lists the forms declare, the library's `FileAllowed` test (the lower-cased
  name ends in `.ext`) accepts exactly the names `allowed_file` accepts.
- `Accounts` (accounts.dfy): the users table. It holds the decisions of `login`,
  `register`, `toggle_user_status` and `toggle_admin_status` as pure functions from the
  table and the session to an outcome, plus their invariants. Those invariants are e-mail
  uniqueness, "only the target's one flag changes", "the caller's own record never
  changes" and "two toggles restore the table".
- `Logistics` (logistics.dfy): the artifact, professional, transport and scan records
  that the create handlers build. It also holds the catalog code with its shape and
  round-trip lemmas, the artifact choice list rebuilt on each request, and the dashboard's
  pending-transport count.
- `Routes` (store.dfy): class `Store`. It holds every table and the session as fields, and
  has one method per handler. Each method runs the handler's steps on the fields. All but
  `Logout`, `Dashboard` and `AdminUsers` are proved against the function of `Accounts` or
  `Logistics` that specifies them; those three state their result directly. Its
  invariant `Valid()` says four things:
  - every table is numbered 1, 2, … in insertion order;
  - e-mails are unique;
  - every artifact names an existing user;
  - every transport and scan names an existing artifact.

`register`, `catalogar_novo`, `adicionar_profissional`, `scanner_3d` and `transporte` commit
only inside `validate_on_submit()`. So each of them adds a record only when its form
predicate holds. `register` also needs an unused e-mail, and the other four need a
logged-in caller. The two toggle handlers commit without a form, and `login` never
commits. The predicates are written the way the form library applies each validator:

- `DataRequired` rejects a value that is empty after stripping whitespace. This is
  stricter than "non-empty": a user name of three spaces passes `Length(min=3)` and is
  still refused.
- An upload with an empty file name counts as no upload.
- A `SelectField` accepts only a declared key. An integer one with `DataRequired` also
  refuses 0.

Three behaviours of the code are worth stating outright:

- `catalogar_novo` validates the `code` field of `ArtifactForm` but never stores it. So
  `Logistics.Artifact` has no such column.
- Catalog codes are unique only by chance: the handler takes the first 8 hex digits of a
  random UUID and never checks for a collision. The model proves that two codes collide
  exactly when their tokens share those 8 digits.
- `allowed_file` is defined in routes.py but no handler calls it. Uploads are judged
  only by the forms' `FileAllowed` validators, which the lemma above shows agree with it.

## Model

| member | source | states |
|---|---|---|
| `Uploads.LastDot` | routes.py:14 | the split point of `rsplit('.', 1)`: None exactly when there is no '.', otherwise a '.' with no '.' after it |
| `Uploads.Extension` | routes.py:14 | the text after the last '.', which contains no '.' and ends the name; None exactly when there is no '.' |
| `Uploads.AllowedFile` | routes.py:13-14 | a name without '.' is never allowed |
| `Uploads.AllowedFileIffLastSuffix` | routes.py:13-14 | `allowed_file` holds exactly when some '.' is followed by a dot-free suffix whose lower-case form is in the list |
| `Uploads.AllowedFileExamples` | routes.py:14 | "A.JPG" and "x.tar.JPG" pass with {"jpg"}; "x.tar.JPG" fails with {"tar"}; "jpg" (no dot) fails |
| `Text.Lower` | routes.py:14 | same length, each upper-case ASCII letter lower-cased, every other character kept |
| `Text.Upper` | routes.py:110 | same length, each lower-case ASCII letter upper-cased, every other character kept |
| `Forms.FileAllowedIsAllowedFile` | forms.py:38-39 | for dot-free allow-lists, "lower-cased name ends in '.' + ext for an allowed ext" holds exactly when `allowed_file` holds |
| `Forms.FileFieldAccepts` | forms.py:38-39 | a file field passes exactly when no file was sent or `allowed_file` accepts the name |
| `Text.IsSpace` | forms.py:11 | the characters `DataRequired`'s strip removes: space, tab, newline and carriage return are among them, letters, digits and '.' are not |
| `Forms.DataRequired` | forms.py:11 | a value passes exactly when some character of it is not whitespace, so it is never empty |
| `Forms.IdChosen` | forms.py:50 | an integer choice passes only when it is a non-zero id that the choice list offers; 0 never passes |
| `Forms.FileAllowed` | forms.py:38 | an absent upload passes; a present one passes only when its name contains a '.'; an empty allow-list passes only absent uploads |
| `Forms.LoginValid` | forms.py:6-8 | a valid login form has a non-empty e-mail that passes the e-mail check and a non-empty password |
| `Forms.RegisterValid` | forms.py:10-13 | a valid register form has a user name of 3 to 64 characters, a non-empty e-mail passing the e-mail check, and a password of at least 6 characters |
| `Forms.BlankUsernameRejected` | forms.py:11 | a user name of three spaces is refused even though it meets the length bound |
| `Forms.ArtifactValid` | forms.py:15-39 | a valid artifact form has a non-empty name of at most 200 characters, a code of at most 50, a location of at most 300, a type among the 8 keys and a conservation state among the 5 keys |
| `Forms.ArtifactFormAccepts` | forms.py:15-39 | the artifact form is valid exactly when the bounds and choices hold, the date is empty or parsed, and each present file has an image or a 3D-model extension respectively |
| `Forms.GifOnlyForArtifactPhoto` | forms.py:38 | "retrato.GIF" passes the artifact photo field and fails the profile photo field |
| `Forms.ProfessionalValid` | forms.py:41-47 | a valid professional form has a non-empty name of at most 100 characters, a specialization of at most 200, and an age that is empty or an integer |
| `Forms.ProfessionalFormAccepts` | forms.py:41-47 | the professional form is valid exactly when those bounds hold and any profile photo has a jpg/jpeg/png extension |
| `Forms.TransportValid` | forms.py:49-59 | a valid transport form names an artifact id offered by the choice list, has non-empty origin and destination of at most 300 characters, a responsible person of at most 100, and a status among pendente/em_transito/concluido |
| `Forms.ScanValid` | forms.py:62-67 | a valid scan form names an offered artifact id and has a scanner type of at most 100 characters and a resolution of at most 50 |
| `Forms.ScanFormAccepts` | forms.py:62-67 | the scan form is valid exactly when a non-zero offered id is chosen, the bounds hold and any scan file has an obj/ply/stl/fbx extension |
| `Forms.GalleryCategory` | forms.py:77-81 | an absent category reads as "geral", a submitted one as itself |
| `Forms.GalleryValid` | forms.py:74-83 | a valid gallery form has a non-empty title of at most 200 characters, an event name of at most 200, an allowed category and an uploaded image |
| `Forms.GalleryFormAccepts` | forms.py:74-83 | the gallery form is valid exactly when those hold and the image has a jpg/jpeg/png/gif extension |
| `Forms.GalleryDefaultCategoryAccepted` | forms.py:77-81 | a form that sends no category passes the category check |
| `Forms.AbsentFilePasses` | forms.py:38-39 | no upload, or an upload with an empty name, passes any allow-list |
| `Accounts.Find` | routes.py:37 | the first record carrying the key (an e-mail as in the login and register look-ups, or an id as in the toggle look-ups), or None exactly when no record carries it |
| `Accounts.FindIdSequential` | routes.py:257 | on a table numbered 1..n, id k is found at position k-1 exactly when 1 <= k <= n |
| `Accounts.CurrentUser` | app.py:41-43 | the logged-in user is a record whose id the session carries, and a session naming an existing id always yields a user; no session, no user |
| `Accounts.IsAdminSession` | routes.py:253 | the `current_user.is_admin` gate passes only for a session naming a record with the admin flag; no session never passes |
| `Accounts.AdminSessionSequential` | routes.py:243 | on a table numbered 1..n, session n passes the admin gate exactly when record n exists and has the admin flag |
| `Accounts.LoginStep` | routes.py:30-47 | the session changes only on success, and then to the user logged in; success requires a record with that e-mail, a matching password and the active flag; "deactivated" requires a matching password; an existing session short-circuits |
| `Accounts.LoginJudgesTheAccount` | routes.py:36-45 | with unique e-mails, a login for an account's e-mail gives: bad credentials on a wrong password, success on a right password for an active account, "deactivated" on a right password for an inactive one |
| `Accounts.LoginUnknownEmail` | routes.py:37-45 | an e-mail no account has is a bad credential and leaves the session as it was |
| `Accounts.RegisterStep` | routes.py:49-67 | registration succeeds exactly when the form is valid and the e-mail is unused; then exactly one user is appended with the next id, that e-mail, the hash of the password and the default flags; otherwise the table is unchanged |
| `Accounts.RegisterKeepsUsersValid` | routes.py:53-63 | registration keeps ids sequential and e-mails unique |
| `Accounts.RegisterSameEmailTwice` | routes.py:53-55 | after a successful registration, a second one with the same e-mail is refused and the table keeps the single new row |
| `Accounts.RegisterThenLogin` | routes.py:36-63 | logging in right after registering, with the same e-mail and password, logs the new account in when new accounts are active, and reports it deactivated otherwise |
| `Accounts.WithFlag` | routes.py:261 | setting one flag changes no other column |
| `Accounts.ToggleStep` | routes.py:250-284 | a toggle happens exactly when the caller is a logged-in admin, the target exists and is not the caller; a non-admin is denied, a missing target is not found, a self-toggle is refused, and none of those change the table |
| `Accounts.FindByIdSeesOnlyIds` | routes.py:257 | a look-up by id depends on the id column alone, so two tables with the same ids row by row find every id at the same position |
| `Accounts.ToggleChangesOnlyTargetFlag` | routes.py:261 | a successful toggle replaces only the record carrying the target id, with exactly its one flag negated, whatever the ids |
| `Accounts.ToggleHitsPosition` | routes.py:257-261 | on a table numbered 1..n the toggled record is the one at position target-1 |
| `Accounts.ToggleSparesCaller` | routes.py:258-259 | no toggle ever changes the caller's own record |
| `Accounts.AdminKeepsOwnAdminFlag` | routes.py:276-277 | an administrator is still an administrator after any admin toggle, for any ids |
| `Accounts.ToggleKeepsIds` | routes.py:279 | toggling changes no id and no e-mail |
| `Accounts.ToggleKeepsUsersValid` | routes.py:261 | toggling keeps ids sequential and e-mails unique |
| `Accounts.ToggleTwiceRestores` | routes.py:261 | two identical toggle requests in a row give back the original table, for any ids |
| `Logistics.Take` | routes.py:110 | Python's `s[:n]`: a prefix of length min(n, len(s)) |
| `Logistics.CatalogCode` | routes.py:110 | the code starts with "LAARI-" followed by at most 8 characters |
| `Logistics.CatalogCodeShape` | routes.py:110 | for a UUID hex token the code has length 14, starts with "LAARI-" and ends in 8 characters from 0-9A-F |
| `Logistics.CatalogCodeRoundTrip` | routes.py:110 | lower-casing the 8 code digits gives back the token's first 8 digits |
| `Logistics.CatalogCodesCollideOnlyOnSharedDigits` | routes.py:110 | two codes are equal exactly when their tokens share the first 8 digits |
| `Logistics.ArtifactChoices` | routes.py:185-186 | one choice per artifact, in table order, carrying that artifact's id |
| `Logistics.ChoicesOfferExactlyArtifacts` | routes.py:218-219 | the choice list offers an id exactly when an artifact with that id exists |
| `Logistics.HasArtifactNumbered` | routes.py:218-219 | on a table numbered 1..n an artifact id exists exactly when it is in 1..n |
| `Logistics.ArtifactRecord` | routes.py:101-121 | a record exists exactly when the artifact form is valid; it carries the form's values (name, date, origin, type, conservation state, observations), the creator, the catalog code of the token, and a photo or model path exactly when that file was uploaded |
| `Logistics.ProfessionalRecord` | routes.py:158-170 | a record exists exactly when the professional form is valid; it carries the form's values and a photo path exactly when a photo was uploaded |
| `Logistics.TransportRecord` | routes.py:221-230 | a record exists exactly when the transport form is valid against the choice list; it then references an existing artifact and carries the chosen status |
| `Logistics.ScanRecord` | routes.py:188-202 | a record exists exactly when the scan form is valid against the choice list; it references an existing artifact, and has a path and size only when a file was uploaded |
| `Logistics.PendingCount` | routes.py:81 | at most the number of transports; 0 exactly when none is "pendente"; all of them exactly when all are |
| `Logistics.PendingCountAppend` | routes.py:81 | the count over two lists joined is the sum of the counts |
| `Logistics.AddingTransportsRaisesPendingBy` | routes.py:81 | adding N pending transports raises the count by exactly N; adding non-pending ones leaves it unchanged |
| `Routes.Store.constructor` | app.py:55-65 | a store over a valid users table (such as one with a seeded admin), empty catalog tables and no session |
| `Routes.Store.Login` | routes.py:30-47 | follows `LoginStep`; only the session may change and the users table is never written |
| `Routes.Store.Logout` | routes.py:69-73 | a logged-in session is cleared; an anonymous request changes nothing |
| `Routes.Store.Register` | routes.py:49-67 | follows `RegisterStep` and keeps the store invariant, e-mail uniqueness included |
| `Routes.Store.Dashboard` | routes.py:75-89 | logged-in callers get the number of artifacts, of professionals and of pending transports; anonymous callers get nothing |
| `Routes.Store.CatalogArtifact` | routes.py:97-128 | a logged-in caller with a valid form appends exactly the `ArtifactRecord`, created by the caller; otherwise the table is unchanged |
| `Routes.Store.AddProfessional` | routes.py:154-177 | a logged-in caller with a valid form appends exactly the `ProfessionalRecord`; otherwise the table is unchanged |
| `Routes.Store.RecordTransport` | routes.py:212-238 | a logged-in caller with a form valid against the fresh choice list appends exactly the `TransportRecord`; every transport keeps naming an existing artifact |
| `Routes.Store.RecordScan` | routes.py:179-210 | a logged-in caller with a form valid against the fresh choice list appends exactly the `ScanRecord`; every scan keeps naming an existing artifact |
| `Routes.Store.AdminUsers` | routes.py:240-248 | the users table is returned exactly to a logged-in administrator |
| `Routes.Store.ToggleUserStatus` | routes.py:250-266 | follows `ToggleStep` on `is_active_user` and keeps the store invariant |
| `Routes.Store.ToggleAdminStatus` | routes.py:268-284 | follows `ToggleStep` on `is_admin` and keeps the store invariant |
| `Routes.Store.ToggleFlag` | routes.py:253-261 | the shared steps of both toggle handlers: admin gate, look-up, self-protection, one flip |

## Left out

- Flask plumbing is not modelled. That covers routing, templates, redirects, flash
  messages and the 404/500 error handlers (routes.py:286-294). Each outcome is an
  enumerated value instead.
- The read-only views are left out. `index` renders a static page, and
  `perfil_profissional` reads one row through `get_or_404` (routes.py:151). `catalogacao`,
  `acervo`, `inventario`, `profissionais` and the list part of `scanner_3d` and
  `transporte` list a table in the order their `order_by` names (routes.py:94, 133, 139,
  145, 209, 237); that ordering is presentation only.
- `save_uploaded_file` (routes.py:16-24) is file-system I/O. The path it returns is a
  parameter of each create method. The model records a path exactly when the upload
  carries a file name, which is the case in which that function returns one.
- The `os.path.getsize` check (routes.py:201-202) is file-system I/O. The size is a
  parameter: None means no file exists at the stored path.
- `uuid.uuid4()` is random, so its hex text is a parameter. The catalog-code lemmas
  assume it is 32 lower-case hexadecimal digits.
- Accounts.RegisterStep: `hash` is a deterministic function, while Werkzeug's
  `generate_password_hash` draws a random salt, so two hashes of one password may differ.
  No property here depends on equal hashes.
- Password hashing and checking are Werkzeug calls. They are the parameters `hash` and
  `matches`.
- The e-mail format check `Email()` is a library check. It is the parameter `isEmail`.
- Date and integer parsing belong to the form library. A typed field arrives already
  converted as `Entry` (`Blank`, `Value` or `Malformed`).
- The CSRF token check and the POST check inside `validate_on_submit()` are not
  modelled: each create method stands for a submitted form.
- models.py is not part of this model. Its defaults for `is_active_user` and `is_admin`
  are a parameter of the store (`ColumnDefaults`).
- Whether models.py gives `qr_code`, `email` or `username` a storage-level unique constraint is
  unknown. If it did, a collision would roll the request back; that path is not modelled.
- Whether Flask-Login refuses an existing session once its user is deactivated depends
  on models.py. The model lets any session that names an existing user pass
  `@login_required`.
- app.py (configuration, `LoginManager` setup, the admin seed at app.py:55-65) is left
  out. The constructor instead accepts any valid starting users table.
- `AdminUserForm` (forms.py:69-72) is declared but no handler uses it. `PhotoGalleryForm`
  (forms.py:74-83) is not even imported by routes.py (routes.py:11); it is modelled as a form
  only.
- Creation timestamps are left out: they come from the clock and only order the list
  views.
- Ids: the store numbers every table 1, 2, … (an auto-increment key on tables without
  deletes), while the database only promises unique keys, which may have gaps. The toggle
  lemmas hold for any ids; the next id `len(users) + 1` at registration relies on the numbering.
- Concurrency is left out. Races on unique columns are the storage engine's job.
- Text.Lower: models `str.lower()` on ASCII letters only. Non-ASCII letters in a file
  extension are kept as they are.
- Text.Upper: models `str.upper()` on ASCII letters only. The catalog code upper-cases
  hexadecimal digits, which are ASCII.
