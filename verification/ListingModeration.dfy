/**
 * Creation, update, moderation, resubmission and image upload of listings: who may change what, and
 * which pairs of status and moderation status a listing passes through. `content` stands for all the
 * fields an owner may edit by an update; the hero image and the media rows have endpoints of their own.
 */
module ListingModeration {
  import opened Common
  import opened ListingTypes

  datatype Media = Media(id: string, url: string)

  datatype Listing = Listing(content: string, status: ListingStatus, moderationStatus: ModerationStatus,
                             publishAt: Option<int>, isArchived: bool, createdByUserId: Option<string>,
                             reviewedBy: Option<string>, reviewNotes: Option<string>,
                             heroImageUrl: Option<string>, media: seq<Media>)

  /** `None` stands for an absent field; `Some(None)` for an explicit null. */
  datatype UpdateDto = UpdateDto(content: Option<string>, status: Option<ListingStatus>,
                                 moderationStatus: Option<ModerationStatus>, publishAt: Option<Option<int>>,
                                 reviewNotes: Option<Option<string>>, isArchived: Option<bool>, otherAdminField: bool)

  datatype ModerationDto = ModerationDto(moderationStatus: ModerationStatus, publishStatus: Option<ListingStatus>,
                                         reviewNotes: Option<string>)

  datatype ListingError = NotFound | Forbidden | NoFile | TooManyFiles | UploadFailed | MediaNotFound

  function Created(userId: string, isAdmin: bool, content: string, publishAt: Option<int>): Listing {
    Listing(content, ListingStatus.PENDING, ModerationStatus.PENDING, if isAdmin then publishAt else None,
            false, Some(userId), None, None, None, [])
  }

  /** Some field of the request only an admin may send. `reviewNotes` is not one: it is dropped. */
  predicate AdminFields(dto: UpdateDto) {
    dto.status.Some? || dto.moderationStatus.Some? || dto.publishAt.Some? || dto.isArchived.Some? || dto.otherAdminField
  }

  predicate MayUpdate(l: Listing, userId: string, isAdmin: bool, dto: UpdateDto) {
    isAdmin || (l.createdByUserId == Some(userId) && !AdminFields(dto))
  }

  function Updated(l: Listing, isAdmin: bool, dto: UpdateDto): Listing {
    var edited := l.(content := if dto.content.Some? then dto.content.value else l.content);
    if isAdmin then
      edited.(status := if dto.status.Some? then dto.status.value else l.status,
              moderationStatus := if dto.moderationStatus.Some? then dto.moderationStatus.value else l.moderationStatus,
              publishAt := if dto.publishAt.Some? then dto.publishAt.value else l.publishAt,
              isArchived := if dto.isArchived.Some? then dto.isArchived.value else l.isArchived,
              reviewNotes := if dto.reviewNotes.Some? then dto.reviewNotes.value else l.reviewNotes)
    else
      edited.(status := ListingStatus.PENDING, moderationStatus := ModerationStatus.PENDING,
              reviewedBy := None, reviewNotes := None)
  }

  function StatusFor(dto: ModerationDto): ListingStatus {
    match dto.moderationStatus
    case APPROVED => if dto.publishStatus.Some? then dto.publishStatus.value else ListingStatus.APPROVED
    case REJECTED => ListingStatus.REJECTED
    case CHANGES_REQUESTED => ListingStatus.PENDING
    case ARCHIVED => ListingStatus.DELETED
    case PENDING => if dto.publishStatus.Some? then dto.publishStatus.value else ListingStatus.PENDING
  }

  function Moderated(l: Listing, moderatorId: string, dto: ModerationDto, now: int): Listing {
    var publishes := dto.moderationStatus.APPROVED? && l.publishAt.None?
      && (dto.publishStatus == Some(ListingStatus.APPROVED) || dto.publishStatus.None?);
    l.(moderationStatus := dto.moderationStatus,
       status := StatusFor(dto),
       publishAt := if publishes then Some(now) else l.publishAt,
       isArchived := if dto.moderationStatus.APPROVED? then false
                     else if dto.moderationStatus.ARCHIVED? then true
                     else l.isArchived,
       reviewedBy := Some(moderatorId), reviewNotes := dto.reviewNotes)
  }

  function Submitted(l: Listing): Listing {
    l.(status := ListingStatus.PENDING, moderationStatus := ModerationStatus.PENDING,
       reviewedBy := None, reviewNotes := None)
  }

  /** The rows other than the one with this id. */
  function Without(media: seq<Media>, mediaId: string): seq<Media> {
    if media == [] then []
    else (if media[0].id == mediaId then [] else [media[0]]) + Without(media[1..], mediaId)
  }

  predicate HasMedia(l: Listing, mediaId: string) {
    exists k | 0 <= k < |l.media| :: l.media[k].id == mediaId
  }

  /** The files stored before the first one that fails. */
  function StoredFiles(files: seq<Option<Media>>): seq<Media> {
    if files == [] || files[0].None? then [] else [files[0].value] + StoredFiles(files[1..])
  }

  lemma {:induction false} StoredNext(files: seq<Option<Media>>, n: nat)
    requires n < |files| && forall k :: 0 <= k < n ==> files[k].Some?
    ensures StoredFiles(files[..n + 1]) ==
              StoredFiles(files[..n]) + if files[n].Some? then [files[n].value] else []
    ensures files[n].None? ==> StoredFiles(files) == StoredFiles(files[..n])
  {
    if n > 0 {
      StoredNext(files[1..], n - 1);
      assert files[..n + 1][1..] == files[1..][..n];
      assert files[..n][1..] == files[1..][..n - 1];
    }
  }

  class ListingsService {
    var listings: map<string, Listing>

    constructor ()
      ensures listings == map[]
    {
      listings := map[];
    }

    method CreateListing(id: string, userId: string, isAdmin: bool, content: string, publishAt: Option<int>)
      requires id !in listings
      modifies this
      ensures listings == old(listings)[id := Created(userId, isAdmin, content, publishAt)]
    {
      var at := if isAdmin && publishAt.Some? then publishAt else None;
      listings := listings[id :=
          Listing(content, ListingStatus.PENDING, ModerationStatus.PENDING, at, false, Some(userId),
                                         None, None, None, [])];
    }

    method UpdateListing(id: string, userId: string, isAdmin: bool, dto: UpdateDto)
      returns (r: Result<Listing, ListingError>)
      modifies this
      ensures if id !in old(listings) then r == Err(NotFound) && listings == old(listings)
              else
                var l := old(listings)[id];
                if !MayUpdate(l, userId, isAdmin, dto) then r == Err(Forbidden) && listings == old(listings)
                else r == Ok(Updated(l, isAdmin, dto)) && listings == old(listings)[id := Updated(l, isAdmin, dto)]
    {
      if id !in listings { return Err(NotFound); }
      var l := listings[id];
      if !isAdmin && l.createdByUserId != Some(userId) { return Err(Forbidden); }
      if dto.content.Some? { l := l.(content := dto.content.value); }
      if dto.otherAdminField {
        if !isAdmin { return Err(Forbidden); }
      }
      if dto.publishAt.Some? {
        if !isAdmin { return Err(Forbidden); }
        l := l.(publishAt := dto.publishAt.value);
      }
      if dto.status.Some? {
        if !isAdmin { return Err(Forbidden); }
        l := l.(status := dto.status.value);
      }
      if dto.moderationStatus.Some? {
        if !isAdmin { return Err(Forbidden); }
        l := l.(moderationStatus := dto.moderationStatus.value);
      } else if !isAdmin {
        l := l.(moderationStatus := ModerationStatus.PENDING);
      }
      if !isAdmin {
        l := l.(status := ListingStatus.PENDING, reviewNotes := None, reviewedBy := None);
      } else if dto.reviewNotes.Some? {
        l := l.(reviewNotes := dto.reviewNotes.value);
      }
      if dto.isArchived.Some? {
        if !isAdmin { return Err(Forbidden); }
        l := l.(isArchived := dto.isArchived.value);
      }
      listings := listings[id := l];
      return Ok(l);
    }

    method ModerateListing(id: string, moderatorId: string, dto: ModerationDto, now: int)
      returns (r: Result<Listing, ListingError>)
      modifies this
      ensures if id !in old(listings) then r == Err(NotFound) && listings == old(listings)
              else r == Ok(Moderated(old(listings)[id], moderatorId, dto, now))
                   && listings == old(listings)[id := Moderated(old(listings)[id], moderatorId, dto, now)]
    {
      if id !in listings { return Err(NotFound); }
      var existing := listings[id];
      var l := existing.(moderationStatus := dto.moderationStatus,
                         reviewNotes := dto.reviewNotes, reviewedBy := Some(moderatorId));
      match dto.moderationStatus {
        case APPROVED =>
          l := l.(status := if dto.publishStatus.Some? then dto.publishStatus.value else ListingStatus.APPROVED,
                  isArchived := false);
          var isDefault := dto.publishStatus == Some(ListingStatus.APPROVED) || dto.publishStatus.None?;
          if existing.publishAt.None? && isDefault {
            l := l.(publishAt := Some(now));
          }
        case REJECTED =>
          l := l.(status := ListingStatus.REJECTED);
        case CHANGES_REQUESTED =>
          l := l.(status := ListingStatus.PENDING);
        case ARCHIVED =>
          l := l.(status := ListingStatus.DELETED, isArchived := true);
        case PENDING =>
          l := l.(status := if dto.publishStatus.Some? then dto.publishStatus.value else ListingStatus.PENDING);
      }
      listings := listings[id := l];
      return Ok(l);
    }

    method SubmitListingForReview(id: string, userId: string) returns (r: Result<Listing, ListingError>)
      modifies this
      ensures if id !in old(listings) then r == Err(NotFound) && listings == old(listings)
              else
                var l := old(listings)[id];
                if l.createdByUserId != Some(userId) then r == Err(Forbidden) && listings == old(listings)
                else r == Ok(Submitted(l)) && listings == old(listings)[id := Submitted(l)]
    {
      if id !in listings { return Err(NotFound); }
      if listings[id].createdByUserId != Some(userId) { return Err(Forbidden); }
      var l := listings[id].(status := ListingStatus.PENDING, moderationStatus := ModerationStatus.PENDING,
                             reviewNotes := None, reviewedBy := None);
      listings := listings[id := l];
      return Ok(l);
    }

    /** Any signed-in user may call this; `stored` is where the file ended up, if it did. */
    method UploadHeroImage(id: string, hasFile: bool, stored: Option<string>) returns (r: Result<string, ListingError>)
      modifies this
      ensures r == (if !hasFile then Err(NoFile)
                    else if id !in old(listings) then Err(NotFound)
                    else if stored.None? then Err(UploadFailed)
                    else Ok(stored.value))
      ensures r.Err? ==> listings == old(listings)
      ensures r.Ok? ==> listings == old(listings)[id := old(listings)[id].(heroImageUrl := stored)]
    {
      if !hasFile { return Err(NoFile); }
      if id !in listings { return Err(NotFound); }
      if stored.None? { return Err(UploadFailed); }
      listings := listings[id := listings[id].(heroImageUrl := stored)];
      return Ok(stored.value);
    }

    /** One media row per file; a file that fails ends the call, and the rows before it stay. */
    method UploadMedia(id: string, files: seq<Option<Media>>) returns (r: Result<seq<Media>, ListingError>)
      modifies this
      ensures r == (if files == [] then Err(NoFile)
                    else if |files| > 10 then Err(TooManyFiles)
                    else if id !in old(listings) then Err(NotFound)
                    else if None in files then Err(UploadFailed)
                    else Ok(StoredFiles(files)))
      ensures files == [] || |files| > 10 || id !in old(listings) ==> listings == old(listings)
      ensures files != [] && |files| <= 10 && id in old(listings) ==>
                var l := old(listings)[id];
                listings == old(listings)[id := l.(media := l.media + StoredFiles(files))]
    {
      if |files| == 0 { return Err(NoFile); }
      if |files| > 10 { return Err(TooManyFiles); }
      if id !in listings { return Err(NotFound); }
      ghost var l := listings[id];
      var uploadedMedia: seq<Media> := [];
      assert l.(media := l.media + []) == l;
      for i := 0 to |files|
        invariant uploadedMedia == StoredFiles(files[..i]) && forall k :: 0 <= k < i ==> files[k].Some?
        invariant id in listings && listings == old(listings)[id := l.(media := l.media + uploadedMedia)]
      {
        StoredNext(files, i);
        if files[i].None? {
          return Err(UploadFailed);
        }
        var mediaRecord := files[i].value;
        assert l.media + uploadedMedia + [mediaRecord] == l.media + (uploadedMedia + [mediaRecord]);
        listings := listings[id := listings[id].(media := listings[id].media + [mediaRecord])];
        uploadedMedia := uploadedMedia + [mediaRecord];
      }
      assert files[..|files|] == files;
      return Ok(uploadedMedia);
    }

    method DeleteMedia(id: string, mediaId: string, isAdmin: bool) returns (r: Result<(), ListingError>)
      modifies this
      ensures r == (if !isAdmin then Err(Forbidden)
                    else if id !in old(listings) then Err(NotFound)
                    else if !HasMedia(old(listings)[id], mediaId) then Err(MediaNotFound)
                    else Ok(()))
      ensures r.Err? ==> listings == old(listings)
      ensures r.Ok? ==>
                var l := old(listings)[id];
                listings == old(listings)[id := l.(media := Without(l.media, mediaId))]
    {
      if !isAdmin { return Err(Forbidden); }
      if id !in listings { return Err(NotFound); }
      if !HasMedia(listings[id], mediaId) { return Err(MediaNotFound); }
      listings := listings[id := listings[id].(media := Without(listings[id].media, mediaId))];
      return Ok(());
    }
  }

  // ---- Runs on one listing ----------------------------------------------------------------------------

  /** One write to the listing; an upload of several files is one event per row. */
  datatype Event =
    | Update(userId: string, isAdmin: bool, dto: UpdateDto)
    | Moderate(moderatorId: string, decision: ModerationDto, now: int)
    | Submit(userId: string)
    | UploadHero(isAdmin: bool, url: string)
    | Upload(isAdmin: bool, row: Media)
    | Delete(isAdmin: bool, mediaId: string)

  predicate Succeeds(l: Listing, e: Event) {
    match e
    case Update(userId, isAdmin, dto) => MayUpdate(l, userId, isAdmin, dto)
    case Moderate(_, _, _) => true
    case Submit(userId) => l.createdByUserId == Some(userId)
    case UploadHero(_, _) => true
    case Upload(_, _) => true
    case Delete(isAdmin, mediaId) => isAdmin && HasMedia(l, mediaId)
  }

  function Step(l: Listing, e: Event): Listing {
    if !Succeeds(l, e) then l
    else match e
      case Update(_, isAdmin, dto) => Updated(l, isAdmin, dto)
      case Moderate(moderatorId, decision, now) => Moderated(l, moderatorId, decision, now)
      case Submit(_) => Submitted(l)
      case UploadHero(_, url) => l.(heroImageUrl := Some(url))
      case Upload(_, row) => l.(media := l.media + [row])
      case Delete(_, mediaId) => l.(media := Without(l.media, mediaId))
  }

  function At(start: Listing, events: seq<Event>, i: nat): Listing
    requires i <= |events|
    decreases i
  {
    if i == 0 then start else Step(At(start, events, i - 1), events[i - 1])
  }

  // ---- What each event comes to -----------------------------------------------------------------------

  /** A created listing waits for review, and only an admin's publication date is taken. */
  lemma {:induction false} CreatedMeans(userId: string, isAdmin: bool, content: string, publishAt: Option<int>)
    ensures var l := Created(userId, isAdmin, content, publishAt);
            && l.content == content && l.createdByUserId == Some(userId) && !l.isArchived
            && l.status == ListingStatus.PENDING && l.moderationStatus == ModerationStatus.PENDING
            && l.reviewedBy == None && l.reviewNotes == None && l.heroImageUrl == None && l.media == []
            && (isAdmin ==> l.publishAt == publishAt) && (!isAdmin ==> l.publishAt == None)
  {
  }

  /** Who made the listing, and its images, are the same. */
  ghost predicate SameOwnerAndImages(l: Listing, l': Listing) {
    l'.createdByUserId == l.createdByUserId && l'.heroImageUrl == l.heroImageUrl && l'.media == l.media
  }

  /** The listing is back in review, with reviewer and notes cleared; date and archive flag are as before. */
  ghost predicate BackInReview(l: Listing, l': Listing) {
    && l'.status == ListingStatus.PENDING && l'.moderationStatus == ModerationStatus.PENDING
    && l'.reviewedBy == None && l'.reviewNotes == None
    && l'.publishAt == l.publishAt && l'.isArchived == l.isArchived
  }

  /**
   * An update goes through for admins, and for the creator if it names no admin field; otherwise it
   * changes nothing. It writes the content given. An admin's sets the fields it names and keeps the
   * others; the creator's sends the listing back to review.
   */
  lemma {:induction false} UpdateMeans(l: Listing, userId: string, isAdmin: bool, dto: UpdateDto)
    ensures var e := Update(userId, isAdmin, dto);
            && (Succeeds(l, e) <==> MayUpdate(l, userId, isAdmin, dto))
            && (Succeeds(l, e) <==>
                isAdmin || (l.createdByUserId == Some(userId) && !dto.otherAdminField && dto.status == None
                            && dto.moderationStatus == None && dto.publishAt == None && dto.isArchived == None))
            && (!Succeeds(l, e) ==> Step(l, e) == l)
    ensures MayUpdate(l, userId, isAdmin, dto) ==>
              var l' := Updated(l, isAdmin, dto);
              && Step(l, Update(userId, isAdmin, dto)) == l' && SameOwnerAndImages(l, l')
              && (dto.content == None ==> l'.content == l.content)
              && (dto.content != None ==> l'.content == dto.content.value)
              && (!isAdmin ==> BackInReview(l, l'))
    ensures isAdmin ==>
              var l' := Updated(l, isAdmin, dto);
              && l'.reviewedBy == l.reviewedBy
              && (dto.status == None ==> l'.status == l.status)
              && (dto.status != None ==> l'.status == dto.status.value)
              && (dto.moderationStatus == None ==> l'.moderationStatus == l.moderationStatus)
              && (dto.moderationStatus != None ==> l'.moderationStatus == dto.moderationStatus.value)
              && (dto.publishAt == None ==> l'.publishAt == l.publishAt)
              && (dto.publishAt != None ==> l'.publishAt == dto.publishAt.value)
              && (dto.isArchived == None ==> l'.isArchived == l.isArchived)
              && (dto.isArchived != None ==> l'.isArchived == dto.isArchived.value)
              && (dto.reviewNotes == None ==> l'.reviewNotes == l.reviewNotes)
              && (dto.reviewNotes != None ==> l'.reviewNotes == dto.reviewNotes.value)
  {
  }

  /**
   * A moderation writes the decision, the moderator and the notes. An approval publishes under the
   * status asked for, dates a listing without a date if that status is APPROVED, and takes the
   * listing out of the archive; archiving deletes and archives; the others set their status only.
   */
  lemma {:induction false} ModerateMeans(l: Listing, moderatorId: string, dto: ModerationDto, now: int)
    ensures var l' := Moderated(l, moderatorId, dto, now);
            && Step(l, Moderate(moderatorId, dto, now)) == l' && SameOwnerAndImages(l, l') && l'.content == l.content
            && l'.moderationStatus == dto.moderationStatus
            && l'.reviewedBy == Some(moderatorId) && l'.reviewNotes == dto.reviewNotes
    ensures dto.moderationStatus == ModerationStatus.APPROVED ==>
              var l' := Moderated(l, moderatorId, dto, now);
              && l'.status == (if dto.publishStatus != None then dto.publishStatus.value else ListingStatus.APPROVED)
              && !l'.isArchived
              && (l.publishAt == None && l'.status == ListingStatus.APPROVED ==> l'.publishAt == Some(now))
              && (l.publishAt != None || l'.status != ListingStatus.APPROVED ==> l'.publishAt == l.publishAt)
    ensures dto.moderationStatus == ModerationStatus.ARCHIVED ==>
              var l' := Moderated(l, moderatorId, dto, now);
              l'.status == ListingStatus.DELETED && l'.isArchived && l'.publishAt == l.publishAt
    ensures dto.moderationStatus in {ModerationStatus.PENDING, ModerationStatus.REJECTED,
                                     ModerationStatus.CHANGES_REQUESTED} ==>
              var l' := Moderated(l, moderatorId, dto, now);
              && l'.isArchived == l.isArchived && l'.publishAt == l.publishAt
              && (dto.moderationStatus == ModerationStatus.REJECTED ==> l'.status == ListingStatus.REJECTED)
              && (dto.moderationStatus == ModerationStatus.CHANGES_REQUESTED ==> l'.status == ListingStatus.PENDING)
              && (dto.moderationStatus == ModerationStatus.PENDING ==>
                  l'.status == if dto.publishStatus != None then dto.publishStatus.value else ListingStatus.PENDING)
  {
  }

  /** A resubmission by the creator sends the listing back to review; by anyone else it changes nothing. */
  lemma {:induction false} SubmitMeans(l: Listing, userId: string)
    ensures var e, l' := Submit(userId), Step(l, Submit(userId));
            && (Succeeds(l, e) <==> l.createdByUserId == Some(userId))
            && (!Succeeds(l, e) ==> l' == l)
            && (Succeeds(l, e) ==>
                l' == Submitted(l) && BackInReview(l, l') && SameOwnerAndImages(l, l') && l'.content == l.content)
  {
  }

  /** `at` are the places of the rows with another id. */
  ghost predicate OthersAt(media: seq<Media>, mediaId: string, at: seq<nat>) {
    forall i: nat :: i in at <==> i < |media| && media[i].id != mediaId
  }

  lemma {:induction false} OthersAtPrepend(media: seq<Media>, mediaId: string, rest: seq<nat>)
    requires media != [] && OthersAt(media[1..], mediaId, rest)
    ensures OthersAt(media, mediaId, if media[0].id == mediaId then Shifted(rest) else [0] + Shifted(rest))
  {
  }

  lemma {:induction false} WithoutPicksFirst(media: seq<Media>, mediaId: string, rest: seq<nat>)
    requires media != [] && Picks(media[1..], rest, Without(media[1..], mediaId))
    ensures Picks(media, if media[0].id == mediaId then Shifted(rest) else [0] + Shifted(rest), Without(media, mediaId))
  {
    PicksPrepend(media[0], media[1..], rest, Without(media[1..], mediaId));
    assert [media[0]] + media[1..] == media;
  }

  /** A deletion leaves the rows with other ids, all of them and in their order. */
  lemma {:induction false} WithoutPicks(media: seq<Media>, mediaId: string) returns (at: seq<nat>)
    ensures Picks(media, at, Without(media, mediaId)) && OthersAt(media, mediaId, at)
  {
    at := [];
    if media != [] {
      var rest := WithoutPicks(media[1..], mediaId);
      OthersAtPrepend(media, mediaId, rest);
      WithoutPicksFirst(media, mediaId, rest);
      at := if media[0].id == mediaId then Shifted(rest) else [0] + Shifted(rest);
    }
  }

  /** An upload stores the files before the first that fails, or all. */
  lemma {:induction false} StoredMeans(files: seq<Option<Media>>)
    ensures |StoredFiles(files)| <= |files|
    ensures forall k :: 0 <= k < |StoredFiles(files)| ==> files[k] == Some(StoredFiles(files)[k])
    ensures |StoredFiles(files)| < |files| ==> files[|StoredFiles(files)|] == None
  {
    if files != [] && files[0].Some? { StoredMeans(files[1..]); }
  }

  /**
   * Uploads go through for everyone and add their image; a deletion goes through for admins who name
   * a row of the listing, and takes it. Nothing else changes.
   */
  lemma {:induction false} ImagesMean(l: Listing, isAdmin: bool, url: string, row: Media, mediaId: string)
    ensures Step(l, UploadHero(isAdmin, url)) == l.(heroImageUrl := Some(url))
    ensures Step(l, Upload(isAdmin, row)) == l.(media := l.media + [row])
    ensures isAdmin && (exists m :: m in l.media && m.id == mediaId) ==>
              Step(l, Delete(isAdmin, mediaId)) == l.(media := Without(l.media, mediaId))
    ensures !isAdmin || (forall m :: m in l.media ==> m.id != mediaId) ==> Step(l, Delete(isAdmin, mediaId)) == l
  {
    if exists m :: m in l.media && m.id == mediaId {
      var m :| m in l.media && m.id == mediaId;
      var k :| 0 <= k < |l.media| && l.media[k] == m;
    }
  }

  // ---- Approval -----------------------------------------------------------------------------------------

  /** An admin action that writes the status column. */
  predicate AdminSetsStatus(e: Event) {
    e.Moderate? || (e.Update? && e.isAdmin && e.dto.status.Some?)
  }

  predicate ByAdmin(e: Event) {
    match e
    case Update(_, isAdmin, _) => isAdmin
    case Moderate(_, _, _) => true
    case Submit(_) => false
    case UploadHero(isAdmin, _) => isAdmin
    case Upload(isAdmin, _) => isAdmin
    case Delete(isAdmin, _) => isAdmin
  }

  predicate IsUpload(e: Event) {
    e.UploadHero? || e.Upload?
  }

  /** The two listings differ in their images at most. */
  predicate SameButImages(a: Listing, b: Listing) {
    b == a.(heroImageUrl := b.heroImageUrl, media := b.media)
  }

  /** Event `j` did not set the status, and if it changed more than images an admin did it. */
  ghost predicate AdminEdit(start: Listing, events: seq<Event>, j: nat)
    requires j < |events|
  {
    && !AdminSetsStatus(events[j])
    && (SameButImages(At(start, events, j), At(start, events, j + 1)) || ByAdmin(events[j]))
  }

  /** Since event `i`, no one set the status, and everything but images was changed by admins only. */
  ghost predicate AdminEditsAfter(start: Listing, events: seq<Event>, i: nat, n: nat)
    requires i < n <= |events|
  {
    forall j :: i < j < n ==> AdminEdit(start, events, j)
  }

  /** Event `i` is the admin action that approved what the listing shows after `n` events, images apart. */
  ghost predicate ApprovedBy(start: Listing, events: seq<Event>, i: nat, n: nat)
    requires n <= |events|
  {
    && i < n && AdminSetsStatus(events[i])
    && At(start, events, i + 1).status.APPROVED?
    && AdminEditsAfter(start, events, i, n)
  }

  /** What one event can do to an approved listing without an admin setting the status. */
  lemma {:induction false} ApprovedStep(l: Listing, e: Event)
    requires Step(l, e).status.APPROVED? && !AdminSetsStatus(e)
    ensures l.status.APPROVED?
    ensures SameButImages(l, Step(l, e)) || ByAdmin(e)
    ensures Succeeds(l, e) ==> ByAdmin(e) || IsUpload(e)
  {
  }

  lemma {:induction false} ApprovedByStill(start: Listing, events: seq<Event>, i: nat, n: nat)
    requires n < |events| && ApprovedBy(start, events, i, n) && AdminEdit(start, events, n)
    ensures ApprovedBy(start, events, i, n + 1)
  {
  }

  /**
   * Approved content is reviewed content: whenever a listing made by `createListing` is APPROVED, an
   * admin action set that status, and since then only admins changed anything but its images.
   */
  lemma {:induction false} ApprovedIsReviewed(userId: string, isAdmin: bool, content: string, publishAt: Option<int>,
                                             events: seq<Event>, n: nat)
    requires n <= |events|
    requires At(Created(userId, isAdmin, content, publishAt), events, n).status.APPROVED?
    ensures exists i: nat :: ApprovedBy(Created(userId, isAdmin, content, publishAt), events, i, n)
    decreases n
  {
    var start := Created(userId, isAdmin, content, publishAt);
    var before, e := At(start, events, n - 1), events[n - 1];
    if AdminSetsStatus(e) {
      assert ApprovedBy(start, events, n - 1, n);
    } else {
      ApprovedStep(before, e);
      assert AdminEdit(start, events, n - 1);
      ApprovedIsReviewed(userId, isAdmin, content, publishAt, events, n - 1);
      var i: nat :| ApprovedBy(start, events, i, n - 1);
      ApprovedByStill(start, events, i, n - 1);
    }
  }

  /** Since the approval at event `i` everything that succeeded, uploads included, was done by admins. */
  ghost predicate ReviewedInFull(start: Listing, events: seq<Event>, i: nat, n: nat)
    requires n <= |events|
  {
    && i < n && AdminSetsStatus(events[i]) && At(start, events, i + 1).status.APPROVED?
    && forall j :: i < j < n && Succeeds(At(start, events, j), events[j]) ==> ByAdmin(events[j])
  }

  /** At event `j` someone other than an admin uploaded an image, and no admin action set the status since. */
  ghost predicate UnseenUpload(events: seq<Event>, j: nat, n: nat)
    requires n <= |events|
  {
    j < n && IsUpload(events[j]) && !ByAdmin(events[j]) && forall k :: j < k < n ==> !AdminSetsStatus(events[k])
  }

  ghost predicate UnreviewedUpload(events: seq<Event>, n: nat)
    requires n <= |events|
  {
    exists j: nat :: UnseenUpload(events, j, n)
  }

  /**
   * With its images, an approved listing is reviewed if and only if no one but an admin has uploaded
   * an image since an admin last set its status.
   */
  lemma {:induction false} ReviewedInFullIff(userId: string, isAdmin: bool, content: string, publishAt: Option<int>,
                                            events: seq<Event>, n: nat)
    requires n <= |events|
    requires At(Created(userId, isAdmin, content, publishAt), events, n).status.APPROVED?
    ensures (exists i: nat :: ReviewedInFull(Created(userId, isAdmin, content, publishAt), events, i, n))
            <==> !UnreviewedUpload(events, n)
  {
    var start := Created(userId, isAdmin, content, publishAt);
    ApprovedIsReviewed(userId, isAdmin, content, publishAt, events, n);
    var i: nat :| ApprovedBy(start, events, i, n);
    if !UnreviewedUpload(events, n) {
      NothingUnseen(start, events, i, n);
    }
    if k: nat :| ReviewedInFull(start, events, k, n) {
      NoUploadSince(start, events, k, n);
    }
  }

  lemma {:induction false} NothingUnseen(start: Listing, events: seq<Event>, i: nat, n: nat)
    requires n <= |events| && At(start, events, n).status.APPROVED?
    requires ApprovedBy(start, events, i, n) && !UnreviewedUpload(events, n)
    ensures ReviewedInFull(start, events, i, n)
  {
    forall j | i < j < n && Succeeds(At(start, events, j), events[j])
      ensures ByAdmin(events[j])
    {
      StillApproved(start, events, i, j + 1, n);
      forall k | j <= k < n
        ensures !AdminSetsStatus(events[k])
      {
        assert AdminEdit(start, events, k);
      }
      ApprovedStep(At(start, events, j), events[j]);
      assert !UnseenUpload(events, j, n);
    }
  }

  lemma {:induction false} NoUploadSince(start: Listing, events: seq<Event>, i: nat, n: nat)
    requires n <= |events| && ReviewedInFull(start, events, i, n)
    ensures !UnreviewedUpload(events, n)
  {
  }

  lemma {:induction false} StillApproved(start: Listing, events: seq<Event>, i: nat, m: nat, n: nat)
    requires n <= |events| && i < m <= n && ApprovedBy(start, events, i, n)
    requires At(start, events, n).status.APPROVED?
    ensures At(start, events, m).status.APPROVED?
    decreases n
  {
    if m < n {
      assert AdminEdit(start, events, n - 1);
      ApprovedStep(At(start, events, n - 1), events[n - 1]);
      StillApproved(start, events, i, m, n - 1);
    }
  }

  /** A run on which an approved listing shows an image no admin has seen. */
  lemma {:induction false} ApprovedWithUnseenImage(userId: string, content: string, moderatorId: string, now: int,
      url: string)
    ensures var events :=
        [Moderate(moderatorId, ModerationDto(ModerationStatus.APPROVED, None, None), now), UploadHero(false, url)];
            var start := Created(userId, false, content, None);
            && At(start, events, 2).status.APPROVED? && At(start, events, 2).heroImageUrl == Some(url)
            && !exists i: nat :: ReviewedInFull(start, events, i, 2)
  {
  }

  /**
   * What anyone but an admin does sends the listing back to review, with the reviewer cleared, if and
   * only if it is not an upload (or the listing is there already); an upload leaves all but the images alone.
   */
  lemma {:induction false} OwnerEditUnapproves(l: Listing, e: Event)
    requires Succeeds(l, e) && !ByAdmin(e)
    ensures Step(l, e).status.PENDING? && Step(l, e).moderationStatus.PENDING? && Step(l, e).reviewedBy.None? <==>
              !IsUpload(e) || (l.status.PENDING? && l.moderationStatus.PENDING? && l.reviewedBy.None?)
    ensures IsUpload(e) ==> SameButImages(l, Step(l, e))
    ensures Step(l, e).publishAt == l.publishAt && Step(l, e).isArchived == l.isArchived
  {
  }

  /** The five pairs moderation is meant to keep a listing in. */
  predicate RegularPair(l: Listing) {
    match l.moderationStatus
    case PENDING => l.status.PENDING?
    case APPROVED => l.status.APPROVED?
    case REJECTED => l.status.REJECTED?
    case CHANGES_REQUESTED => l.status.PENDING?
    case ARCHIVED => l.status.DELETED?
  }

  /** A moderation request whose publish status, where it is read at all, is the default. */
  predicate DefaultPublish(dto: ModerationDto) {
    && (dto.moderationStatus.APPROVED? ==> dto.publishStatus.None? || dto.publishStatus == Some(ListingStatus.APPROVED))
    && (dto.moderationStatus.PENDING? ==> dto.publishStatus.None? || dto.publishStatus == Some(ListingStatus.PENDING))
  }

  /** A moderation step lands in a regular pair exactly when its publish status is the default. */
  lemma {:induction false} RegularIff(l: Listing, moderatorId: string, dto: ModerationDto, now: int)
    ensures RegularPair(Moderated(l, moderatorId, dto, now)) <==> DefaultPublish(dto)
  {
  }

  /** No admin writes the review columns directly, and moderation uses the default publish status. */
  predicate RegularEvent(e: Event) {
    match e
    case Update(_, isAdmin, dto) =>
      isAdmin ==> dto.status.None? && dto.moderationStatus.None? && dto.publishAt.None? && dto.isArchived.None?
    case Moderate(_, decision, _) => DefaultPublish(decision)
    case _ => true
  }

  /** When the first of these events approves the listing. */
  function FirstApproval(events: seq<Event>): Option<int> {
    if events == [] then None
    else if events[0].Moderate? && events[0].decision.moderationStatus.APPROVED? then Some(events[0].now)
    else FirstApproval(events[1..])
  }

  /** The last moderation that touches the archive flag archived the listing. */
  function LastArchives(events: seq<Event>): bool {
    if events == [] then false
    else
      var e := events[|events| - 1];
      if e.Moderate? && e.decision.moderationStatus.ARCHIVED? then true
      else if e.Moderate? && e.decision.moderationStatus.APPROVED? then false
      else LastArchives(events[..|events| - 1])
  }

  lemma {:induction false} FirstApprovalAppend(events: seq<Event>, e: Event)
    ensures FirstApproval(events + [e]) ==
              if FirstApproval(events).Some? then FirstApproval(events) else FirstApproval([e])
  {
    if events == [] {
      assert events + [e] == [e];
    } else {
      assert (events + [e])[1..] == events[1..] + [e];
      FirstApprovalAppend(events[1..], e);
    }
  }

  /** What one regular event does to the columns moderation looks after. */
  lemma {:induction false} RegularStep(l: Listing, e: Event)
    requires RegularEvent(e) && RegularPair(l) && (l.status.APPROVED? ==> l.publishAt.Some?)
    ensures RegularPair(Step(l, e)) && (Step(l, e).status.APPROVED? ==> Step(l, e).publishAt.Some?)
    ensures Step(l, e).publishAt == if l.publishAt.Some? then l.publishAt else FirstApproval([e])
    ensures Step(l, e).isArchived ==
              if e.Moderate? && e.decision.moderationStatus.ARCHIVED? then true
              else if e.Moderate? && e.decision.moderationStatus.APPROVED? then false
              else l.isArchived
    ensures Step(l, e).createdByUserId == l.createdByUserId
  {
  }

  /**
   * Regular runs stay in the five pairs. The publication date is the one given at creation, or else
   * the moment of the first approval, and never moves again; an approved listing has one. The archive
   * flag follows the last approval or archiving, whatever the owner does in between.
   */
  lemma {:induction false} RegularRun(userId: string, isAdmin: bool, content: string, publishAt: Option<int>,
                                     events: seq<Event>, n: nat)
    requires n <= |events| && forall e :: e in events ==> RegularEvent(e)
    ensures var start := Created(userId, isAdmin, content, publishAt);
            var l := At(start, events, n);
            && RegularPair(l)
            && l.publishAt == (if start.publishAt.Some? then start.publishAt else FirstApproval(events[..n]))
            && (l.status.APPROVED? ==> l.publishAt.Some?)
            && l.isArchived == LastArchives(events[..n])
            && l.createdByUserId == Some(userId)
    decreases n
  {
    if n > 0 {
      RegularRun(userId, isAdmin, content, publishAt, events, n - 1);
      assert events[n - 1] in events;
      assert events[..n] == events[..n - 1] + [events[n - 1]];
      RegularStep(At(Created(userId, isAdmin, content, publishAt), events, n - 1), events[n - 1]);
      FirstApprovalAppend(events[..n - 1], events[n - 1]);
    }
  }

  // ---- The archive flag ---------------------------------------------------------------------------------

  /** The flag says what the moderation status says. */
  predicate FlagAgrees(l: Listing) {
    l.isArchived <==> l.moderationStatus.ARCHIVED?
  }

  predicate SetsFlag(e: Event) {
    e.Moderate? && (e.decision.moderationStatus.ARCHIVED? || e.decision.moderationStatus.APPROVED?)
  }

  /** The event changes the moderation status and leaves the flag: an owner's edit, or another moderation. */
  predicate Clears(owner: string, e: Event) {
    match e
    case Update(userId, isAdmin, dto) => !isAdmin && userId == owner && !AdminFields(dto)
    case Submit(userId) => userId == owner
    case Moderate(_, _, _) => !SetsFlag(e)
    case _ => false
  }

  /** A regular event makes the flag disagree exactly when it clears the status of an archived listing. */
  lemma {:induction false} FlagAgreesStep(l: Listing, e: Event, owner: string)
    requires RegularEvent(e) && l.createdByUserId == Some(owner)
    requires l.moderationStatus.ARCHIVED? ==> l.isArchived
    ensures Step(l, e).moderationStatus.ARCHIVED? ==> Step(l, e).isArchived
    ensures FlagAgrees(l) ==> (FlagAgrees(Step(l, e)) <==> !(l.isArchived && Clears(owner, e)))
    ensures !FlagAgrees(l) ==> (FlagAgrees(Step(l, e)) <==> SetsFlag(e))
  {
  }

  /** An archived listing lost its moderation status to event `j`, and no later moderation set the flag. */
  ghost predicate StaleSince(events: seq<Event>, j: nat, n: nat, owner: string)
    requires n <= |events|
  {
    j < n && LastArchives(events[..j]) && Clears(owner, events[j]) && forall k :: j < k < n ==> !SetsFlag(events[k])
  }

  ghost predicate Stale(events: seq<Event>, n: nat, owner: string)
    requires n <= |events|
  {
    exists j: nat :: StaleSince(events, j, n, owner)
  }

  /** In every regular run: the flag agrees with the status if and only if no event made it stale. */
  lemma {:induction false} FlagAgreesIff(userId: string, isAdmin: bool, content: string, publishAt: Option<int>,
                                        events: seq<Event>, n: nat)
    requires n <= |events| && forall e :: e in events ==> RegularEvent(e)
    ensures var l := At(Created(userId, isAdmin, content, publishAt), events, n);
            && (l.moderationStatus.ARCHIVED? ==> l.isArchived)
            && (FlagAgrees(l) <==> !Stale(events, n, userId))
    decreases n
  {
    if n > 0 {
      var l, e := At(Created(userId, isAdmin, content, publishAt), events, n - 1), events[n - 1];
      assert e in events;
      FlagAgreesIff(userId, isAdmin, content, publishAt, events, n - 1);
      RegularRun(userId, isAdmin, content, publishAt, events, n - 1);
      FlagAgreesStep(l, e, userId);
      StaleStep(events, n - 1, userId);
    }
  }

  lemma {:induction false} StaleStep(events: seq<Event>, n: nat, owner: string)
    requires n < |events|
    ensures Stale(events, n + 1, owner) <==>
              || (LastArchives(events[..n]) && Clears(owner, events[n]))
              || (!SetsFlag(events[n]) && Stale(events, n, owner))
  {
    if LastArchives(events[..n]) && Clears(owner, events[n]) {
      assert StaleSince(events, n, n + 1, owner);
    }
    if !SetsFlag(events[n]) && Stale(events, n, owner) {
      var j: nat :| StaleSince(events, j, n, owner);
      assert StaleSince(events, j, n + 1, owner);
    }
    if Stale(events, n + 1, owner) {
      var j: nat :| StaleSince(events, j, n + 1, owner);
      assert j < n ==> StaleSince(events, j, n, owner);
    }
  }

  /** The flag can be stale: the owner resubmits an archived listing and it is PENDING and archived. */
  lemma {:induction false} ArchivedYetPending(userId: string, content: string, moderatorId: string, now: int)
    ensures var events :=
        [Moderate(moderatorId, ModerationDto(ModerationStatus.ARCHIVED, None, None), now), Submit(userId)];
            var l := At(Created(userId, false, content, None), events, 2);
            (forall e :: e in events ==> RegularEvent(e)) && l.status.PENDING? && l.isArchived
  {
  }
}
