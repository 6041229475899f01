/** The form declarations of forms.py as validity predicates over submitted field values.
    Each form is valid exactly when every validator of every field passes, which is the
    condition under which `validate_on_submit()` lets a handler commit. */
module Forms {
  import opened Common
  import opened Text
  import Uploads

  /** A file field: nothing sent, or a file with the name the browser gave it. */
  datatype Upload = NoFile | File(filename: string)

  /** A typed field (integer, date) after the library's conversion of the raw text:
      left empty, converted, or text the conversion rejected. */
  datatype Entry<T> = Blank | Value(value: T) | Malformed

  function EntryValue<T>(e: Entry<T>): (r: Option<T>)
    ensures r.Some? <==> e.Value?
    ensures r.Some? ==> r.value == e.value
  {
    if e.Value? then Some(e.value) else None
  }

  // ---------------------------------------------------------------------------
  // Validators, with the meaning the form library gives them

  /** `DataRequired()` on a text field: the value is not empty after stripping whitespace. */
  function DataRequired(s: string): (ok: bool)
    ensures ok <==> exists i :: 0 <= i < |s| && !IsSpace(s[i])
    ensures ok ==> s != ""
  {
    !AllSpace(s)
  }

  /** `Length(min=lo, max=hi)`. */
  predicate LengthBetween(s: string, lo: nat, hi: nat) {
    lo <= |s| <= hi
  }

  /** `Length(max=hi)`: no lower bound. */
  predicate MaxLength(s: string, hi: nat) {
    |s| <= hi
  }

  /** `Length(min=lo)`: no upper bound. */
  predicate MinLength(s: string, lo: nat) {
    lo <= |s|
  }

  /** `Optional()` on a typed field: an empty field passes, a rejected conversion does not. */
  predicate OptionalEntry<T>(e: Entry<T>) {
    !e.Malformed?
  }

  /** A `SelectField` over string keys accepts only one of its declared keys. */
  predicate ChoiceMade(sel: Option<string>, keys: set<string>) {
    sel.Some? && sel.value in keys
  }

  /** An integer `SelectField` with `DataRequired()`: a converted, non-zero value that is one
      of the ids offered in the choice list built for this request. */
  function IdChosen(sel: Option<int>, choices: seq<(int, string)>): (ok: bool)
    ensures ok ==> sel.Some? && sel.value != 0
    ensures ok ==> Offered(choices, sel.value)
    ensures sel == Some(0) ==> !ok
  {
    sel.Some? && sel.value != 0 && Offered(choices, sel.value)
  }

  predicate Offered(choices: seq<(int, string)>, id: int) {
    exists k :: 0 <= k < |choices| && choices[k].0 == id
  }

  /** An upload counts as present only when it carries a non-empty file name. */
  predicate FileUploaded(u: Upload) {
    u.File? && u.filename != ""
  }

  predicate EndsWith(s: string, suffix: string) {
    |suffix| <= |s| && s[|s| - |suffix|..] == suffix
  }

  /** `FileAllowed(exts)`: an absent upload passes; a present one passes when its lower-case
      name ends with '.' followed by one of the extensions. */
  function FileAllowed(u: Upload, exts: set<string>): (ok: bool)
    ensures !FileUploaded(u) ==> ok
    ensures ok && FileUploaded(u) ==> '.' in u.filename
    ensures exts == {} ==> (ok <==> !FileUploaded(u))
  {
    if !FileUploaded(u) then true
    else if exists x :: x in exts && EndsWith(Lower(u.filename), "." + x) then
      DotOfAllowedName(u.filename, exts);
      true
    else false
  }

  /** A name whose lower-case form ends in '.' and an extension contains a '.' itself. */
  lemma DotOfAllowedName(name: string, exts: set<string>)
    requires exists x :: x in exts && EndsWith(Lower(name), "." + x)
    ensures '.' in name
  {
    var x :| x in exts && EndsWith(Lower(name), "." + x);
    var k := |name| - |x| - 1;
    assert Lower(name)[k] == ("." + x)[0] == '.';
    assert name[k] == '.';
  }

  // ---------------------------------------------------------------------------
  // Choice sets and allow-lists declared in forms.py

  const ArtifactTypes: set<string> :=
    {"ceramica", "litico", "metal", "osso", "madeira", "textil", "vidro", "outro"}
  const ConservationStates: set<string> := {"excelente", "bom", "regular", "ruim", "pessimo"}
  const TransportStatuses: set<string> := {"pendente", "em_transito", "concluido"}
  const GalleryCategories: set<string> := {"geral", "equipe", "evento"}
  const DefaultGalleryCategory: string := "geral"

  const ImageExtensions: set<string> := {"jpg", "jpeg", "png", "gif"}
  const ProfileImageExtensions: set<string> := {"jpg", "jpeg", "png"}
  const ModelExtensions: set<string> := {"obj", "ply", "stl", "fbx"}

  predicate DotFree(exts: set<string>) {
    forall x :: x in exts ==> '.' !in x
  }

  lemma AllowListsDotFree()
    ensures DotFree(ImageExtensions) && DotFree(ProfileImageExtensions) && DotFree(ModelExtensions)
  {
  }

  /** A '.' of the lower-cased name with no '.' after it is where the extension starts. */
  lemma ExtensionFromLowerDot(name: string, k: nat)
    requires k < |name| && Lower(name)[k] == '.' && '.' !in Lower(name)[k + 1..]
    ensures Uploads.Extension(name) == Some(name[k + 1..])
    ensures Lower(name[k + 1..]) == Lower(name)[k + 1..]
  {
  }

  /** A lower-cased name ending in '.' and a dot-free allowed extension passes `allowed_file`. */
  lemma EndsWithAllowedExtension(name: string, x: string, exts: set<string>)
    requires x in exts && '.' !in x
    requires EndsWith(Lower(name), "." + x)
    ensures Uploads.AllowedFile(name, exts)
  {
    var l := Lower(name);
    var k := |l| - |x| - 1;
    assert l[k..] == "." + x;
    assert l[k] == '.' && l[k + 1..] == x by {
      assert l[k..][0] == l[k];
      assert l[k + 1..] == l[k..][1..];
    }
    ExtensionFromLowerDot(name, k);
  }

  /** A name that `allowed_file` accepts ends, once lower-cased, in '.' and its extension. */
  lemma AllowedFileEndsWithExtension(name: string, exts: set<string>)
    requires Uploads.AllowedFile(name, exts)
    ensures Uploads.Extension(name).Some?
    ensures Lower(Uploads.Extension(name).value) in exts
    ensures EndsWith(Lower(name), "." + Lower(Uploads.Extension(name).value))
  {
    var e := Uploads.Extension(name).value;
    var k := |name| - |e| - 1;
    assert name[k..] == "." + e;
    assert Lower(name)[k..] == Lower(name[k..]);
    assert Lower("." + e) == "." + Lower(e);
  }

  /** For allow-lists without dots, the form validator and `allowed_file` of routes.py
      judge a file name identically. */
  lemma FileAllowedIsAllowedFile(name: string, exts: set<string>)
    requires DotFree(exts)
    ensures (exists x :: x in exts && EndsWith(Lower(name), "." + x)) <==> Uploads.AllowedFile(name, exts)
  {
    if x :| x in exts && EndsWith(Lower(name), "." + x) {
      EndsWithAllowedExtension(name, x, exts);
    }
    if Uploads.AllowedFile(name, exts) {
      AllowedFileEndsWithExtension(name, exts);
    }
  }

  /** A field with a dot-free allow-list accepts exactly: no file, or a file that
      `allowed_file` accepts. */
  lemma FileFieldAccepts(u: Upload, exts: set<string>)
    requires DotFree(exts)
    ensures FileAllowed(u, exts) <==> (FileUploaded(u) ==> Uploads.AllowedFile(u.filename, exts))
  {
    if FileUploaded(u) {
      FileAllowedIsAllowedFile(u.filename, exts);
    }
  }

  // ---------------------------------------------------------------------------
  // The forms

  datatype LoginFields = LoginFields(email: string, password: string)

  /** `LoginForm`; `isEmail` stands for the library's `Email()` check. */
  function LoginValid(f: LoginFields, isEmail: string -> bool): (ok: bool)
    ensures ok ==> f.email != "" && f.password != "" && isEmail(f.email)
  {
    DataRequired(f.email) && isEmail(f.email) && DataRequired(f.password)
  }

  datatype RegisterFields = RegisterFields(username: string, email: string, password: string)

  /** `RegisterForm`. */
  function RegisterValid(f: RegisterFields, isEmail: string -> bool): (ok: bool)
    ensures ok ==> 3 <= |f.username| <= 64 && f.email != "" && isEmail(f.email) && |f.password| >= 6
  {
    DataRequired(f.username) && LengthBetween(f.username, 3, 64)
    && DataRequired(f.email) && isEmail(f.email)
    && DataRequired(f.password) && MinLength(f.password, 6)
  }

  datatype ArtifactFields = ArtifactFields(
    name: string, code: string, discoveryDate: Entry<Date>, originLocation: string,
    artifactType: Option<string>, conservationState: Option<string>, observations: string,
    photo: Upload, model3d: Upload)

  /** `ArtifactForm`. */
  function ArtifactValid(f: ArtifactFields): (ok: bool)
    ensures ok ==> 0 < |f.name| <= 200 && |f.code| <= 50 && |f.originLocation| <= 300
    ensures ok ==> f.artifactType.Some? && f.artifactType.value in ArtifactTypes
    ensures ok ==> f.conservationState.Some? && f.conservationState.value in ConservationStates
  {
    DataRequired(f.name) && MaxLength(f.name, 200)
    && MaxLength(f.code, 50)
    && OptionalEntry(f.discoveryDate)
    && MaxLength(f.originLocation, 300)
    && ChoiceMade(f.artifactType, ArtifactTypes)
    && ChoiceMade(f.conservationState, ConservationStates)
    && FileAllowed(f.photo, ImageExtensions)
    && FileAllowed(f.model3d, ModelExtensions)
  }

  /** The artifact form, stated with the extension test of routes.py: each file is optional,
      and a present one must carry an image or a 3D-model extension respectively. */
  lemma ArtifactFormAccepts(f: ArtifactFields)
    ensures ArtifactValid(f) <==>
      DataRequired(f.name) && |f.name| <= 200 && |f.code| <= 50 && !f.discoveryDate.Malformed?
      && |f.originLocation| <= 300
      && ChoiceMade(f.artifactType, ArtifactTypes)
      && ChoiceMade(f.conservationState, ConservationStates)
      && (FileUploaded(f.photo) ==> Uploads.AllowedFile(f.photo.filename, ImageExtensions))
      && (FileUploaded(f.model3d) ==> Uploads.AllowedFile(f.model3d.filename, ModelExtensions))
  {
    AllowListsDotFree();
    FileFieldAccepts(f.photo, ImageExtensions);
    FileFieldAccepts(f.model3d, ModelExtensions);
  }

  datatype ProfessionalFields = ProfessionalFields(
    name: string, age: Entry<int>, specialization: string, description: string,
    experience: string, profilePhoto: Upload)

  /** `ProfessionalForm`. */
  function ProfessionalValid(f: ProfessionalFields): (ok: bool)
    ensures ok ==> 0 < |f.name| <= 100 && |f.specialization| <= 200 && !f.age.Malformed?
  {
    DataRequired(f.name) && MaxLength(f.name, 100)
    && OptionalEntry(f.age)
    && MaxLength(f.specialization, 200)
    && FileAllowed(f.profilePhoto, ProfileImageExtensions)
  }

  /** The professional form with the extension test of routes.py. */
  lemma ProfessionalFormAccepts(f: ProfessionalFields)
    ensures ProfessionalValid(f) <==>
      DataRequired(f.name) && |f.name| <= 100 && !f.age.Malformed? && |f.specialization| <= 200
      && (FileUploaded(f.profilePhoto) ==> Uploads.AllowedFile(f.profilePhoto.filename, ProfileImageExtensions))
  {
    AllowListsDotFree();
    FileFieldAccepts(f.profilePhoto, ProfileImageExtensions);
  }

  datatype TransportFields = TransportFields(
    artifactId: Option<int>, originLocation: string, destinationLocation: string,
    transportDate: Entry<Date>, responsiblePerson: string, status: Option<string>, notes: string)

  /** `TransportForm`, checked against the artifact choice list of the current request. */
  function TransportValid(f: TransportFields, choices: seq<(int, string)>): (ok: bool)
    ensures ok ==> f.artifactId.Some? && Offered(choices, f.artifactId.value)
    ensures ok ==> 0 < |f.originLocation| <= 300 && 0 < |f.destinationLocation| <= 300
    ensures ok ==> |f.responsiblePerson| <= 100
    ensures ok ==> f.status.Some? && f.status.value in TransportStatuses
  {
    IdChosen(f.artifactId, choices)
    && DataRequired(f.originLocation) && MaxLength(f.originLocation, 300)
    && DataRequired(f.destinationLocation) && MaxLength(f.destinationLocation, 300)
    && OptionalEntry(f.transportDate)
    && MaxLength(f.responsiblePerson, 100)
    && ChoiceMade(f.status, TransportStatuses)
  }

  datatype ScanFields = ScanFields(
    artifactId: Option<int>, scannerType: string, resolution: string, scanFile: Upload, notes: string)

  /** `Scanner3DForm`, checked against the artifact choice list of the current request. */
  function ScanValid(f: ScanFields, choices: seq<(int, string)>): (ok: bool)
    ensures ok ==> f.artifactId.Some? && Offered(choices, f.artifactId.value)
    ensures ok ==> |f.scannerType| <= 100 && |f.resolution| <= 50
  {
    IdChosen(f.artifactId, choices)
    && MaxLength(f.scannerType, 100)
    && MaxLength(f.resolution, 50)
    && FileAllowed(f.scanFile, ModelExtensions)
  }

  /** The scan form with the extension test of routes.py. */
  lemma ScanFormAccepts(f: ScanFields, choices: seq<(int, string)>)
    ensures ScanValid(f, choices) <==>
      IdChosen(f.artifactId, choices) && |f.scannerType| <= 100 && |f.resolution| <= 50
      && (FileUploaded(f.scanFile) ==> Uploads.AllowedFile(f.scanFile.filename, ModelExtensions))
  {
    AllowListsDotFree();
    FileFieldAccepts(f.scanFile, ModelExtensions);
  }

  datatype GalleryFields = GalleryFields(
    title: string, description: string, category: Option<string>, eventName: string,
    image: Upload, isPublished: bool)

  /** The category the form carries: the submitted one, or the declared default. */
  function GalleryCategory(f: GalleryFields): (c: string)
    ensures f.category.None? ==> c == DefaultGalleryCategory
    ensures f.category.Some? ==> c == f.category.value
  {
    f.category.GetOr(DefaultGalleryCategory)
  }

  /** `PhotoGalleryForm`. */
  function GalleryValid(f: GalleryFields): (ok: bool)
    ensures ok ==> 0 < |f.title| <= 200 && |f.eventName| <= 200
    ensures ok ==> GalleryCategory(f) in GalleryCategories
    ensures ok ==> FileUploaded(f.image)
  {
    DataRequired(f.title) && MaxLength(f.title, 200)
    && GalleryCategory(f) in GalleryCategories
    && MaxLength(f.eventName, 200)
    && FileUploaded(f.image) && FileAllowed(f.image, ImageExtensions)
  }

  /** The gallery form with the extension test of routes.py: the image is mandatory. */
  lemma GalleryFormAccepts(f: GalleryFields)
    ensures GalleryValid(f) <==>
      DataRequired(f.title) && |f.title| <= 200 && GalleryCategory(f) in GalleryCategories
      && |f.eventName| <= 200
      && FileUploaded(f.image) && Uploads.AllowedFile(f.image.filename, ImageExtensions)
  {
    AllowListsDotFree();
    FileFieldAccepts(f.image, ImageExtensions);
  }

  // ---------------------------------------------------------------------------
  // Consequences worth spelling out

  /** `allowed_file` judges "retrato.GIF" on "gif": an image, but not a profile image. */
  lemma GifExtension()
    ensures Uploads.AllowedFile("retrato.GIF", ImageExtensions)
    ensures !Uploads.AllowedFile("retrato.GIF", ProfileImageExtensions)
  {
    Uploads.OnlyLastDotHasDotFreeSuffix("retrato.GIF", 7);
    assert Uploads.Extension("retrato.GIF") == Some("GIF");
    assert Lower("GIF") == "gif";
  }

  /** The artifact photo takes a `.gif`, the profile photo does not. */
  lemma GifOnlyForArtifactPhoto()
    ensures FileAllowed(File("retrato.GIF"), ImageExtensions)
    ensures !FileAllowed(File("retrato.GIF"), ProfileImageExtensions)
  {
    GifExtension();
    AllowListsDotFree();
    FileFieldAccepts(File("retrato.GIF"), ImageExtensions);
    FileFieldAccepts(File("retrato.GIF"), ProfileImageExtensions);
  }

  /** A user name of three spaces meets the length bound yet fails `DataRequired()`. */
  lemma BlankUsernameRejected(email: string, password: string, isEmail: string -> bool)
    ensures !RegisterValid(RegisterFields("   ", email, password), isEmail)
  {
  }

  /** A gallery form that sends no category is judged on "geral", which is allowed. */
  lemma GalleryDefaultCategoryAccepted(f: GalleryFields)
    requires f.category.None?
    ensures GalleryCategory(f) in GalleryCategories
  {
  }

  /** An absent file passes every `FileAllowed` field, whatever its allow-list. */
  lemma AbsentFilePasses(exts: set<string>)
    ensures FileAllowed(NoFile, exts) && FileAllowed(File(""), exts)
  {
  }
}
