/** Artifacts, professionals, transports and 3D scans: the records the catalog and logistics
    handlers of routes.py create, the catalog code, the artifact choice list and the
    dashboard's pending-transport figure. */
module Logistics {
  import opened Common
  import opened Text
  import Forms

  datatype Artifact = Artifact(
    id: nat, name: string, discoveryDate: Option<Date>, originLocation: string,
    artifactType: string, conservationState: string, observations: string,
    userId: nat, qrCode: string, photoPath: Option<string>, model3dPath: Option<string>)

  datatype Professional = Professional(
    id: nat, name: string, age: Option<int>, specialization: string, description: string,
    experience: string, profilePhoto: Option<string>)

  datatype Transport = Transport(
    id: nat, artifactId: int, originLocation: string, destinationLocation: string,
    transportDate: Option<Date>, responsiblePerson: string, status: string, notes: string)

  datatype Scan = Scan(
    id: nat, artifactId: int, scannerType: string, resolution: string, notes: string,
    filePath: Option<string>, fileSize: Option<nat>)

  // ---------------------------------------------------------------------------
  // Catalog code (routes.py:110)

  const CatalogPrefix: string := "LAARI-"

  /** Python's `s[:n]`. */
  function Take(s: string, n: nat): (t: string)
    ensures |t| == if |s| < n then |s| else n
    ensures t == s[..|t|]
  {
    if |s| < n then s else s[..n]
  }

  /** `f"LAARI-{token[:8].upper()}"`, where `token` is the hex text of a fresh random UUID. */
  function CatalogCode(token: string): (code: string)
    ensures |code| == |CatalogPrefix| + (if |token| < 8 then |token| else 8)
    ensures code[..|CatalogPrefix|] == CatalogPrefix
  {
    CatalogPrefix + Upper(Take(token, 8))
  }

  /** What `uuid.uuid4().hex` yields: 32 lower-case hexadecimal digits. */
  predicate IsUuidHex(token: string) {
    |token| == 32 && IsLowerHex(token)
  }

  /** Every catalog code has 14 characters: the prefix and 8 upper-case hexadecimal digits. */
  lemma CatalogCodeShape(token: string)
    requires IsUuidHex(token)
    ensures |CatalogCode(token)| == 14
    ensures CatalogCode(token)[..6] == "LAARI-"
    ensures forall i :: 6 <= i < 14 ==> IsUpperHexDigit(CatalogCode(token)[i])
  {
  }

  /** Lower-casing the digits of a code gives back the first 8 digits of its token. */
  lemma CatalogCodeRoundTrip(token: string)
    requires IsUuidHex(token)
    ensures Lower(CatalogCode(token)[6..]) == token[..8]
  {
  }

  /** Two artifacts get the same code exactly when their tokens share the first 8 digits. */
  lemma CatalogCodesCollideOnlyOnSharedDigits(t1: string, t2: string)
    requires IsUuidHex(t1) && IsUuidHex(t2)
    ensures CatalogCode(t1) == CatalogCode(t2) <==> t1[..8] == t2[..8]
  {
  }

  // ---------------------------------------------------------------------------
  // Artifact choice list (routes.py:185-186, 218-219)

  function ChoiceLabel(a: Artifact): string {
    a.name + " - " + a.qrCode
  }

  /** `[(a.id, f"{a.name} - {a.qr_code}") for a in Artifact.query.all()]`. */
  function ArtifactChoices(artifacts: seq<Artifact>): (cs: seq<(int, string)>)
    ensures |cs| == |artifacts|
    ensures forall i :: 0 <= i < |cs| ==> cs[i].0 == artifacts[i].id
  {
    seq(|artifacts|, i requires 0 <= i < |artifacts| => (artifacts[i].id, ChoiceLabel(artifacts[i])))
  }

  predicate HasArtifact(artifacts: seq<Artifact>, id: int) {
    exists i :: 0 <= i < |artifacts| && artifacts[i].id == id
  }

  predicate ArtifactsNumbered(artifacts: seq<Artifact>) {
    forall i :: 0 <= i < |artifacts| ==> artifacts[i].id == i + 1
  }

  /** The choice list offers exactly the ids of the stored artifacts. */
  lemma ChoicesOfferExactlyArtifacts(artifacts: seq<Artifact>, id: int)
    ensures Forms.Offered(ArtifactChoices(artifacts), id) <==> HasArtifact(artifacts, id)
  {
  }

  /** On a sequentially numbered table, the artifact with id `id` exists exactly when
      `1 <= id <= |artifacts|`. */
  lemma HasArtifactNumbered(artifacts: seq<Artifact>, id: int)
    requires ArtifactsNumbered(artifacts)
    ensures HasArtifact(artifacts, id) <==> 1 <= id <= |artifacts|
  {
    if 1 <= id <= |artifacts| {
      assert artifacts[id - 1].id == id;
    }
  }

  // ---------------------------------------------------------------------------
  // The records the create handlers add (routes.py:101-111, 158-170, 188-202, 221-230)

  /** The artifact `catalogar_novo` adds, or None when the form is rejected. `token` is the
      UUID hex text; `photoPath` and `modelPath` are where the upload layer stored the files. */
  function ArtifactRecord(
    n: nat, f: Forms.ArtifactFields, userId: nat, token: string,
    photoPath: string, modelPath: string): (r: Option<Artifact>)
    ensures r.Some? <==> Forms.ArtifactValid(f)
    ensures r.Some? ==> r.value.id == n + 1 && r.value.userId == userId
    ensures r.Some? ==> r.value.qrCode == CatalogCode(token)
    ensures r.Some? ==> Some(r.value.artifactType) == f.artifactType && r.value.artifactType in Forms.ArtifactTypes
    ensures r.Some? ==> Some(r.value.conservationState) == f.conservationState
    ensures r.Some? ==> r.value.conservationState in Forms.ConservationStates
    ensures r.Some? ==> r.value.name == f.name && r.value.originLocation == f.originLocation
    ensures r.Some? ==> r.value.observations == f.observations
    ensures r.Some? ==> r.value.discoveryDate == Forms.EntryValue(f.discoveryDate)
    ensures r.Some? ==> (r.value.photoPath.Some? <==> Forms.FileUploaded(f.photo))
    ensures r.Some? && r.value.photoPath.Some? ==> r.value.photoPath.value == photoPath
    ensures r.Some? ==> (r.value.model3dPath.Some? <==> Forms.FileUploaded(f.model3d))
    ensures r.Some? && r.value.model3dPath.Some? ==> r.value.model3dPath.value == modelPath
  {
    if !Forms.ArtifactValid(f) then None
    else Some(Artifact(
      n + 1, f.name, Forms.EntryValue(f.discoveryDate), f.originLocation,
      f.artifactType.value, f.conservationState.value, f.observations, userId,
      CatalogCode(token),
      if Forms.FileUploaded(f.photo) then Some(photoPath) else None,
      if Forms.FileUploaded(f.model3d) then Some(modelPath) else None))
  }

  /** The professional `adicionar_profissional` adds, or None when the form is rejected. */
  function ProfessionalRecord(n: nat, f: Forms.ProfessionalFields, photoPath: string)
    : (r: Option<Professional>)
    ensures r.Some? <==> Forms.ProfessionalValid(f)
    ensures r.Some? ==> r.value.id == n + 1 && r.value.name == f.name
    ensures r.Some? ==> r.value.age == Forms.EntryValue(f.age)
    ensures r.Some? ==> r.value.specialization == f.specialization
    ensures r.Some? ==> r.value.description == f.description && r.value.experience == f.experience
    ensures r.Some? ==> (r.value.profilePhoto.Some? <==> Forms.FileUploaded(f.profilePhoto))
    ensures r.Some? && r.value.profilePhoto.Some? ==> r.value.profilePhoto.value == photoPath
  {
    if !Forms.ProfessionalValid(f) then None
    else Some(Professional(
      n + 1, f.name, Forms.EntryValue(f.age), f.specialization, f.description, f.experience,
      if Forms.FileUploaded(f.profilePhoto) then Some(photoPath) else None))
  }

  /** The transport `transporte` adds, or None when the form (checked against the choice list
      built from all artifacts) is rejected. */
  function TransportRecord(artifacts: seq<Artifact>, n: nat, f: Forms.TransportFields)
    : (r: Option<Transport>)
    ensures r.Some? <==> Forms.TransportValid(f, ArtifactChoices(artifacts))
    ensures r.Some? ==> HasArtifact(artifacts, r.value.artifactId)
    ensures r.Some? ==> r.value.id == n + 1 && Some(r.value.artifactId) == f.artifactId
    ensures r.Some? ==> r.value.status in Forms.TransportStatuses && Some(r.value.status) == f.status
    ensures r.Some? ==> r.value.originLocation == f.originLocation
    ensures r.Some? ==> r.value.destinationLocation == f.destinationLocation
    ensures r.Some? ==> r.value.transportDate == Forms.EntryValue(f.transportDate)
    ensures r.Some? ==> r.value.responsiblePerson == f.responsiblePerson && r.value.notes == f.notes
  {
    if !Forms.TransportValid(f, ArtifactChoices(artifacts)) then None
    else
      ChoicesOfferExactlyArtifacts(artifacts, f.artifactId.value);
      Some(Transport(
        n + 1, f.artifactId.value, f.originLocation, f.destinationLocation,
        Forms.EntryValue(f.transportDate), f.responsiblePerson, f.status.value, f.notes))
  }

  /** The scan `scanner_3d` adds, or None when the form is rejected. `filePath` is where the
      upload layer stored the scan file and `fileSize` what the file system reports for it
      (None when no file exists at that path). */
  function ScanRecord(
    artifacts: seq<Artifact>, n: nat, f: Forms.ScanFields, filePath: string, fileSize: Option<nat>)
    : (r: Option<Scan>)
    ensures r.Some? <==> Forms.ScanValid(f, ArtifactChoices(artifacts))
    ensures r.Some? ==> HasArtifact(artifacts, r.value.artifactId)
    ensures r.Some? ==> r.value.id == n + 1 && Some(r.value.artifactId) == f.artifactId
    ensures r.Some? ==> r.value.scannerType == f.scannerType && r.value.resolution == f.resolution
    ensures r.Some? ==> r.value.notes == f.notes
    ensures r.Some? ==> (r.value.filePath.Some? <==> Forms.FileUploaded(f.scanFile))
    ensures r.Some? && r.value.filePath.Some? ==> r.value.filePath.value == filePath
    ensures r.Some? ==> r.value.fileSize == if Forms.FileUploaded(f.scanFile) then fileSize else None
  {
    if !Forms.ScanValid(f, ArtifactChoices(artifacts)) then None
    else
      ChoicesOfferExactlyArtifacts(artifacts, f.artifactId.value);
      var uploaded := Forms.FileUploaded(f.scanFile);
      Some(Scan(
        n + 1, f.artifactId.value, f.scannerType, f.resolution, f.notes,
        if uploaded then Some(filePath) else None,
        if uploaded then fileSize else None))
  }

  // ---------------------------------------------------------------------------
  // Pending transports (routes.py:81)

  const Pending: string := "pendente"

  /** `Transport.query.filter_by(status='pendente').count()`. */
  function PendingCount(ts: seq<Transport>): (n: nat)
    ensures n <= |ts|
    ensures n == 0 <==> forall i :: 0 <= i < |ts| ==> ts[i].status != Pending
    ensures n == |ts| <==> forall i :: 0 <= i < |ts| ==> ts[i].status == Pending
  {
    if ts == [] then 0
    else
      var init := ts[..|ts| - 1];
      assert forall i :: 0 <= i < |init| ==> init[i] == ts[i];
      PendingCount(init) + (if ts[|ts| - 1].status == Pending then 1 else 0)
  }

  /** The count of a concatenation is the sum of the counts. */
  lemma {:induction false} PendingCountAppend(ts: seq<Transport>, more: seq<Transport>)
    ensures PendingCount(ts + more) == PendingCount(ts) + PendingCount(more)
  {
    if more != [] {
      var init := more[..|more| - 1];
      assert (ts + more)[..|ts + more| - 1] == ts + init;
      PendingCountAppend(ts, init);
    } else {
      assert ts + more == ts;
    }
  }

  /** Adding N pending transports raises the figure by exactly N; adding anything else
      leaves it where it was. */
  lemma AddingTransportsRaisesPendingBy(ts: seq<Transport>, more: seq<Transport>)
    ensures (forall i :: 0 <= i < |more| ==> more[i].status == Pending) ==>
      PendingCount(ts + more) == PendingCount(ts) + |more|
    ensures (forall i :: 0 <= i < |more| ==> more[i].status != Pending) ==>
      PendingCount(ts + more) == PendingCount(ts)
  {
    PendingCountAppend(ts, more);
  }
}
