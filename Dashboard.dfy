/** The dashboard's upload and gallery controller: storage keys namespaced by
    the user id, the upload status with its timed reset, the gallery list
    replaced from the store's listing, media-type classification by file
    extension, and the password-update and account-deletion handlers.

    The object store, the UUID generator and the timer are outside the model:
    their results are parameters of the handlers, and a scheduled reset is a
    pending entry that `FireReset` consumes. */
module Dashboard {
  import opened Wrappers
  import opened Text
  import opened AuthContext

  // ---------------------------------------------------------------------
  // Storage keys
  // ---------------------------------------------------------------------

  /** The folder that holds one user's objects: `userId + "/"`. */
  function ListPrefix(userId: string): (prefix: string)
    ensures |prefix| == |userId| + 1 && prefix[|userId|] == '/'
    ensures IsPrefix(userId, prefix)
  {
    userId + "/"
  }

  /** The key of object `name` in the user's folder: `userId + "/" + name`,
      used both for the upload (with a fresh id as name) and for the public
      URL of a listed item. */
  function ObjectKey(userId: string, name: string): (key: string)
    ensures IsPrefix(ListPrefix(userId), key)
    ensures key[|ListPrefix(userId)|..] == name
  {
    ListPrefix(userId) + name
  }

  /** Index of the first `/` in `s`, if any. */
  function FirstSlash(s: string): (r: Option<nat>)
    ensures r.Some? ==> r.value < |s| && s[r.value] == '/' && '/' !in s[..r.value]
    ensures r.None? ==> '/' !in s
  {
    if s == [] then None
    else if s[0] == '/' then Some(0)
    else
      match FirstSlash(s[1..])
      case None => None
      case Some(i) => assert s[..i + 1] == [s[0]] + s[1..][..i]; Some(i + 1)
  }

  /** The user folder a key lies in: everything before its first `/`. */
  function OwnerOf(key: string): Option<string> {
    match FirstSlash(key)
    case None => None
    case Some(i) => Some(key[..i])
  }

  /** A key built for a user whose id holds no `/` lies in that user's folder. */
  lemma OwnerOfObjectKey(userId: string, name: string)
    requires '/' !in userId
    ensures OwnerOf(ObjectKey(userId, name)) == Some(userId)
  {
    var key := ObjectKey(userId, name);
    assert key[|userId|] == '/';
    assert key[..|userId|] == userId;
    var i := FirstSlash(key).value;
    forall j | 0 <= j < i ensures key[j] != '/' {
      assert key[j] == key[..i][j];
    }
    forall j | 0 <= j < |userId| ensures key[j] != '/' {
      assert key[j] == userId[j];
    }
    assert i == |userId|;
  }

  /** Keys of two different users never coincide, so listing one user's
      folder never yields another user's object. */
  lemma KeysOfDifferentUsersDiffer(u: string, v: string, a: string, b: string)
    requires '/' !in u && '/' !in v && u != v
    ensures ObjectKey(u, a) != ObjectKey(v, b)
  {
    OwnerOfObjectKey(u, a);
    OwnerOfObjectKey(v, b);
  }

  /** The name a prefix listing reports for a key inside the prefix. */
  function ListedName(prefix: string, key: string): string
    requires IsPrefix(prefix, key)
  {
    key[|prefix|..]
  }

  /** An uploaded object, listed from its owner's folder, is shown through the
      public URL of the very key it was uploaded under. */
  lemma PublicUrlKeyOfUpload(userId: string, id: string)
    ensures ObjectKey(userId, ListedName(ListPrefix(userId), ObjectKey(userId, id))) == ObjectKey(userId, id)
  {
  }

  // ---------------------------------------------------------------------
  // Media type
  // ---------------------------------------------------------------------

  /** Extensions rendered as video (lower case, with the dot). */
  const VideoExtensions: seq<string> := [".mp4", ".webm", ".ogg"]

  /** `/\.(mp4|webm|ogg)$/i`: the name ends in a video extension, ignoring
      the case of its letters. */
  function IsVideo(name: string): (video: bool)
    ensures video <==> exists k :: 0 <= k < |VideoExtensions| && IsSuffix(VideoExtensions[k], Lowered(name))
    ensures video ==> 4 <= |name|
  {
    assert VideoExtensions[0] == ".mp4" && VideoExtensions[1] == ".webm" && VideoExtensions[2] == ".ogg";
    IsSuffix(".mp4", Lowered(name)) || IsSuffix(".webm", Lowered(name)) || IsSuffix(".ogg", Lowered(name))
  }

  lemma LoweredTail(s: string, k: nat)
    requires k <= |s|
    ensures Lowered(s[k..]) == Lowered(s)[k..]
  {
  }

  /** A name is a video exactly when some tail of it, case-folded, is one of
      the video extensions. */
  lemma IsVideoIff(name: string)
    ensures IsVideo(name) <==> exists k :: 0 <= k <= |name| && Lowered(name[k..]) in VideoExtensions
  {
    var low := Lowered(name);
    if IsVideo(name) {
      var ext := if IsSuffix(".mp4", low) then ".mp4" else if IsSuffix(".webm", low) then ".webm" else ".ogg";
      var k := |name| - |ext|;
      LoweredTail(name, k);
      assert Lowered(name[k..]) == ext;
    }
    if exists k :: 0 <= k <= |name| && Lowered(name[k..]) in VideoExtensions {
      var k :| 0 <= k <= |name| && Lowered(name[k..]) in VideoExtensions;
      LoweredTail(name, k);
      assert low[k..] in VideoExtensions;
    }
  }

  /** `clip.MP4` is a video; `photo.png` and `doc` are images. */
  lemma IsVideoExamples()
    ensures IsVideo("clip.MP4")
    ensures !IsVideo("photo.png") && !IsVideo("doc")
  {
    assert Lowered("clip.MP4")[4..] == ".mp4";
    assert Lowered("photo.png")[5..] == ".png";
    assert Lowered("photo.png")[4..] == "o.png";
  }

  // ---------------------------------------------------------------------
  // Gallery
  // ---------------------------------------------------------------------

  /** One listed object: the store's id and the name inside the folder. */
  datatype MediaItem = MediaItem(id: string, name: string)

  /** One gallery card: list key, public-URL key, player kind and caption. */
  datatype Card = Card(key: string, urlKey: string, video: bool, caption: string)

  datatype GalleryView = NoFiles | Grid(cards: seq<Card>)

  function CardOf(userId: string, media: MediaItem): Card {
    Card(media.id, ObjectKey(userId, media.name), IsVideo(media.name), media.name)
  }

  /** The gallery: an empty-state notice for no items, otherwise one card per
      item, in order, each showing the object at the item's key in the
      current user's folder. */
  function Gallery(userId: string, medias: seq<MediaItem>): (view: GalleryView)
    ensures view.NoFiles? <==> medias == []
    ensures view.Grid? ==> |view.cards| == |medias|
    ensures view.Grid? ==> forall i :: 0 <= i < |medias| ==>
      && IsPrefix(ListPrefix(userId), view.cards[i].urlKey)
      && ListedName(ListPrefix(userId), view.cards[i].urlKey) == medias[i].name
      && (view.cards[i].video <==> IsVideo(medias[i].name))
      && view.cards[i].key == medias[i].id
      && view.cards[i].caption == medias[i].name
  {
    if medias == [] then NoFiles
    else Grid(seq(|medias|, i requires 0 <= i < |medias| => CardOf(userId, medias[i])))
  }

  // ---------------------------------------------------------------------
  // Upload status
  // ---------------------------------------------------------------------

  datatype StatusKind = Uploading | Succeeded | Failed

  /** `{type, message}` as shown in the notification area. */
  datatype UploadStatus = UploadStatus(kind: StatusKind, message: string)

  const UploadingStatus := UploadStatus(Uploading, "Enviando arquivo...")
  const SuccessStatus := UploadStatus(Succeeded, "Arquivo enviado com sucesso!")
  const UploadErrorStatus := UploadStatus(Failed, "Erro ao enviar arquivo.")
  const UnexpectedErrorStatus := UploadStatus(Failed, "Erro inesperado.")

  /** Delay, in milliseconds, after which a terminal status is cleared. */
  const ResetDelayMs: nat := 3000

  /** How the store's upload call ended: a `{data, error}` reply or a throw. */
  datatype UploadReply = Replied(data: Option<string>, error: Option<string>) | UploadThrew

  /** The statuses written after the store call, in order: success when data
      came back, then the upload error when an error came back, or the
      unexpected error when the call threw. */
  function StatusesAfterUpload(reply: UploadReply): (w: seq<UploadStatus>)
    ensures forall i :: 0 <= i < |w| ==> w[i].kind != Uploading
    ensures w == [] <==> reply == Replied(None, None)
    ensures reply.UploadThrew? ==> w == [UnexpectedErrorStatus]
    ensures reply.Replied? && reply.error.Some? ==> w[|w| - 1] == UploadErrorStatus
    ensures reply.Replied? && reply.error.None? && reply.data.Some? ==> w == [SuccessStatus]
    ensures reply.Replied? ==>
      && (SuccessStatus in w <==> reply.data.Some?)
      && (UploadErrorStatus in w <==> reply.error.Some?)
      && |w| == (if reply.data.Some? then 1 else 0) + (if reply.error.Some? then 1 else 0)
  {
    match reply
    case UploadThrew => [UnexpectedErrorStatus]
    case Replied(data, error) =>
      (if data.Some? then [SuccessStatus] else []) + (if error.Some? then [UploadErrorStatus] else [])
  }

  /** The status left showing once an upload's handler has finished. */
  function StatusAfterUpload(reply: UploadReply): (status: UploadStatus)
    ensures status.kind == Uploading <==> reply == Replied(None, None)
  {
    var w := [UploadingStatus] + StatusesAfterUpload(reply);
    w[|w| - 1]
  }

  /** The upload ends in success only when data and no error came back, in
      the upload error whenever an error came back (it is written last), in
      the unexpected error when the call threw, and stays uploading when the
      reply carried neither. */
  lemma StatusAfterUploadCases(reply: UploadReply)
    ensures StatusAfterUpload(reply) == SuccessStatus <==> reply.Replied? && reply.data.Some? && reply.error.None?
    ensures StatusAfterUpload(reply) == UploadErrorStatus <==> reply.Replied? && reply.error.Some?
    ensures StatusAfterUpload(reply) == UnexpectedErrorStatus <==> reply.UploadThrew?
    ensures StatusAfterUpload(reply) == UploadingStatus <==> reply == Replied(None, None)
  {
  }

  /** A status write: a status, or `null` when a reset clears it. */
  predicate IsTerminal(write: Option<UploadStatus>) {
    write.Some? && write.value.kind != Uploading
  }

  /** Number of terminal statuses among the writes. */
  function Terminals(writes: seq<Option<UploadStatus>>): nat {
    if writes == [] then 0
    else Terminals(writes[..|writes| - 1]) + (if IsTerminal(writes[|writes| - 1]) then 1 else 0)
  }

  /** Number of resets (`null` writes) among the writes. */
  function Resets(writes: seq<Option<UploadStatus>>): nat {
    if writes == [] then 0
    else Resets(writes[..|writes| - 1]) + (if writes[|writes| - 1].None? then 1 else 0)
  }

  lemma CountsAppend(writes: seq<Option<UploadStatus>>, w: Option<UploadStatus>)
    ensures Terminals(writes + [w]) == Terminals(writes) + (if IsTerminal(w) then 1 else 0)
    ensures Resets(writes + [w]) == Resets(writes) + (if w.None? then 1 else 0)
  {
    assert (writes + [w])[..|writes|] == writes;
  }

  /** At no point in the history have more resets fired than terminal
      statuses scheduled. */
  ghost predicate ResetsFollowTerminals(writes: seq<Option<UploadStatus>>) {
    forall k :: 0 <= k <= |writes| ==> Resets(writes[..k]) <= Terminals(writes[..k])
  }

  lemma ResetsFollowAppend(writes: seq<Option<UploadStatus>>, w: Option<UploadStatus>)
    requires ResetsFollowTerminals(writes)
    requires Resets(writes + [w]) <= Terminals(writes + [w])
    ensures ResetsFollowTerminals(writes + [w])
  {
    forall k | 0 <= k <= |writes| ensures (writes + [w])[..k] == writes[..k] { }
    assert (writes + [w])[..|writes| + 1] == writes + [w];
  }

  /** While a success or error status is shown, the reset that will clear it
      is still pending. */
  lemma {:induction false} ShownOutcomeHasPendingReset(writes: seq<Option<UploadStatus>>, pending: nat)
    requires ResetsFollowTerminals(writes) && pending + Resets(writes) == Terminals(writes)
    requires writes != [] && IsTerminal(writes[|writes| - 1])
    ensures pending > 0
  {
    var before := writes[..|writes| - 1];
    assert writes == before + [writes[|writes| - 1]];
    CountsAppend(before, writes[|writes| - 1]);
    assert Resets(before) <= Terminals(before);
  }

  /** The writes of a sequence of statuses. */
  function AsWrites(statuses: seq<UploadStatus>): (w: seq<Option<UploadStatus>>)
    ensures |w| == |statuses|
    ensures forall i :: 0 <= i < |w| ==> w[i] == Some(statuses[i])
  {
    seq(|statuses|, i requires 0 <= i < |statuses| => Some(statuses[i]))
  }

  /** `n` freshly scheduled resets. */
  function ResetTimers(n: nat): (t: seq<nat>)
    ensures |t| == n && AllResetDelays(t)
  {
    seq(n, _ => ResetDelayMs)
  }

  /** Every scheduled reset is a pending 3000 ms timer. */
  predicate AllResetDelays(timers: seq<nat>) {
    forall i :: 0 <= i < |timers| ==> timers[i] == ResetDelayMs
  }

  // ---------------------------------------------------------------------
  // Listing
  // ---------------------------------------------------------------------

  /** How the store's list call ended: `{data}` (null or an array) or a throw. */
  datatype ListReply = Listed(items: Option<seq<MediaItem>>) | ListThrew

  /** The gallery list after a listing: replaced by the returned array, kept
      on a null result or a throw. */
  function Relisted(medias: seq<MediaItem>, reply: ListReply): (r: seq<MediaItem>)
    ensures reply == Listed(Some(r)) || (r == medias && !(reply.Listed? && reply.items.Some?))
  {
    if reply.Listed? && reply.items.Some? then reply.items.value else medias
  }

  /** A store call the dashboard issued. */
  datatype StoreRequest = ListRequest(prefix: string) | UploadRequest(key: string)

  // ---------------------------------------------------------------------
  // Handlers without state
  // ---------------------------------------------------------------------

  /** The dialogs and navigation a handler produces. */
  datatype HandlerEffect = HandlerEffect(alert: Option<string>, navigateTo: Option<string>)

  const PasswordUpdatedAlert := "Senha atualizada com sucesso!"
  const PasswordErrorPrefix := "Erro ao atualizar senha: "
  const AccountDeletedAlert := "Conta excluída."
  const DeleteErrorPrefix := "Erro ao excluir conta: "

  /** `handleDeleteAccount`: nothing unless confirmed; then a success alert
      and navigation to the root, or an alert with the translated error. */
  function HandleDeleteAccount<D>(confirmed: bool, reply: Reply<D>): (e: HandlerEffect)
    ensures e.navigateTo.Some? <==> confirmed && reply.error.None?
    ensures e.navigateTo.Some? ==> e.navigateTo.value == "/" && e.alert == Some(AccountDeletedAlert)
    ensures !confirmed ==> e == HandlerEffect(None, None)
    ensures confirmed && reply.error.Some? ==>
      e.alert == Some(DeleteErrorPrefix + TranslateError(reply.error.value.message))
  {
    if !confirmed then HandlerEffect(None, None)
    else
      match Wrap(reply)
      case Success(_) => HandlerEffect(Some(AccountDeletedAlert), Some("/"))
      case Failure(message) => HandlerEffect(Some(DeleteErrorPrefix + message), None)
  }

  // ---------------------------------------------------------------------
  // The controller
  // ---------------------------------------------------------------------

  /** The dashboard component's state. `statusWrites` records every
      `setUploadStatus` call in order and `requests` every store call; both
      exist only to state what the handlers do. */
  class DashboardState {
    var userId: string
    var medias: seq<MediaItem>
    var uploadStatus: Option<UploadStatus>
    var newPassword: string
    /** Delays of the scheduled status resets that have not fired, oldest first. */
    var timers: seq<nat>
    ghost var statusWrites: seq<Option<UploadStatus>>
    ghost var requests: seq<StoreRequest>

    /** The status shown is the last one written, and each terminal status
        written has scheduled exactly one 3000 ms reset, which is either
        still pending or has fired after it. */
    ghost predicate Valid()
      reads this
    {
      && uploadStatus == (if statusWrites == [] then None else statusWrites[|statusWrites| - 1])
      && AllResetDelays(timers)
      && |timers| + Resets(statusWrites) == Terminals(statusWrites)
      && ResetsFollowTerminals(statusWrites)
    }

    /** The state on mount: no user, no items, no status, empty input. */
    constructor ()
      ensures Valid()
      ensures userId == "" && medias == [] && uploadStatus == None && newPassword == ""
      ensures timers == [] && statusWrites == [] && requests == []
    {
      userId := "";
      medias := [];
      uploadStatus := None;
      newPassword := "";
      timers := [];
      statusWrites := [];
      requests := [];
    }

    /** `setUploadStatus(status)`, the raw setter. It does not keep `Valid()`
        by itself; only `Finish`, `FireReset` and `StartUpload` call it, and
        they restore the invariant around it. */
    method SetUploadStatus(status: Option<UploadStatus>)
      modifies this
      ensures uploadStatus == status && statusWrites == old(statusWrites) + [status]
      ensures userId == old(userId) && medias == old(medias) && newPassword == old(newPassword)
      ensures timers == old(timers) && requests == old(requests)
    {
      uploadStatus := status;
      statusWrites := statusWrites + [status];
    }

    /** A terminal status followed by `setTimeout(() => setUploadStatus(null), 3000)`. */
    method Finish(status: UploadStatus)
      requires Valid() && status.kind != Uploading
      modifies this
      ensures Valid()
      ensures uploadStatus == Some(status) && statusWrites == old(statusWrites) + [Some(status)]
      ensures timers == old(timers) + [ResetDelayMs]
      ensures userId == old(userId) && medias == old(medias) && newPassword == old(newPassword)
      ensures requests == old(requests)
    {
      CountsAppend(statusWrites, Some(status));
      ResetsFollowAppend(statusWrites, Some(status));
      SetUploadStatus(Some(status));
      timers := timers + [ResetDelayMs];
    }

    /** The oldest pending reset fires: the status is cleared. */
    method FireReset()
      requires Valid() && timers != []
      modifies this
      ensures Valid()
      ensures uploadStatus == None && statusWrites == old(statusWrites) + [None]
      ensures timers == old(timers)[1..]
      ensures userId == old(userId) && medias == old(medias) && newPassword == old(newPassword)
      ensures requests == old(requests)
    {
      CountsAppend(statusWrites, None);
      ResetsFollowAppend(statusWrites, None);
      SetUploadStatus(None);
      timers := timers[1..];
    }

    /** `getMedias`: list the user's folder and replace the gallery list
        only when the store returned an array. */
    method GetMedias(reply: ListReply)
      requires Valid()
      modifies this
      ensures Valid()
      ensures requests == old(requests) + [ListRequest(ListPrefix(userId))]
      ensures medias == Relisted(old(medias), reply)
      ensures userId == old(userId) && uploadStatus == old(uploadStatus) && newPassword == old(newPassword)
      ensures timers == old(timers) && statusWrites == old(statusWrites)
    {
      requests := requests + [ListRequest(ListPrefix(userId))];
      match reply
      case Listed(Some(items)) => medias := items;
      case Listed(None) =>
      case ListThrew =>
    }

    /** `fetchUser` and the effect on `userId`: a returned user's id is
        stored, and a change to a non-empty id starts a listing. */
    method OnUserFetched(user: Option<string>, reply: ListReply)
      requires Valid()
      modifies this
      ensures Valid()
      ensures userId == user.GetOr(old(userId))
      ensures var loads := user.Some? && user.value != old(userId) && user.value != "";
        && requests == old(requests) + (if loads then [ListRequest(ListPrefix(userId))] else [])
        && medias == (if loads then Relisted(old(medias), reply) else old(medias))
      ensures uploadStatus == old(uploadStatus) && newPassword == old(newPassword)
      ensures timers == old(timers) && statusWrites == old(statusWrites)
    {
      if user.Some? && user.value != userId {
        userId := user.value;
        if userId != "" {
          GetMedias(reply);
        }
      }
    }

    /** The synchronous start of `uploadFile`: the status becomes uploading
        and the store call is issued under `userId + "/" + id`. */
    method StartUpload(id: string) returns (key: string)
      requires Valid()
      modifies this
      ensures Valid()
      ensures key == ObjectKey(userId, id)
      ensures uploadStatus == Some(UploadingStatus)
      ensures statusWrites == old(statusWrites) + [Some(UploadingStatus)]
      ensures requests == old(requests) + [UploadRequest(key)]
      ensures userId == old(userId) && medias == old(medias) && newPassword == old(newPassword)
      ensures timers == old(timers)
    {
      CountsAppend(statusWrites, Some(UploadingStatus));
      ResetsFollowAppend(statusWrites, Some(UploadingStatus));
      SetUploadStatus(Some(UploadingStatus));
      key := ObjectKey(userId, id);
      requests := requests + [UploadRequest(key)];
    }

    /** The rest of `uploadFile`, once the store call has ended: each
        outcome writes its terminal status and schedules its reset, and
        returned data first starts a full re-listing. */
    method SettleUpload(reply: UploadReply, relist: ListReply)
      requires Valid()
      modifies this
      ensures Valid()
      ensures var after := StatusesAfterUpload(reply);
        && statusWrites == old(statusWrites) + AsWrites(after)
        && timers == old(timers) + ResetTimers(|after|)
        && uploadStatus == (if after == [] then old(uploadStatus) else Some(after[|after| - 1]))
      ensures var relists := reply.Replied? && reply.data.Some?;
        && requests == old(requests) + (if relists then [ListRequest(ListPrefix(userId))] else [])
        && medias == (if relists then Relisted(old(medias), relist) else old(medias))
      ensures userId == old(userId) && newPassword == old(newPassword)
    {
      match reply {
        case UploadThrew =>
          Finish(UnexpectedErrorStatus);
          assert AsWrites([UnexpectedErrorStatus]) == [Some(UnexpectedErrorStatus)];
        case Replied(data, error) =>
          if data.Some? {
            GetMedias(relist);
            Finish(SuccessStatus);
          }
          if error.Some? {
            Finish(UploadErrorStatus);
          }
          assert AsWrites([SuccessStatus, UploadErrorStatus]) == [Some(SuccessStatus), Some(UploadErrorStatus)];
          assert AsWrites([SuccessStatus]) == [Some(SuccessStatus)];
          assert AsWrites([UploadErrorStatus]) == [Some(UploadErrorStatus)];
      }
    }

    /** `uploadFile`: with no file selected nothing changes; otherwise the
        upload starts and then settles with the store's outcome. */
    method UploadFile(file: Option<string>, id: string, reply: UploadReply, relist: ListReply)
      returns (key: Option<string>)
      requires Valid()
      modifies this
      ensures Valid()
      ensures file.None? ==>
        && key.None? && statusWrites == old(statusWrites) && timers == old(timers)
        && requests == old(requests) && medias == old(medias) && uploadStatus == old(uploadStatus)
      ensures file.Some? ==>
        var after := StatusesAfterUpload(reply);
        var relists := reply.Replied? && reply.data.Some?;
        && key == Some(ObjectKey(userId, id))
        && statusWrites == old(statusWrites) + [Some(UploadingStatus)] + AsWrites(after)
        && uploadStatus == Some(StatusAfterUpload(reply))
        && timers == old(timers) + ResetTimers(|after|)
        && requests == old(requests) + [UploadRequest(key.value)] + (if relists then [ListRequest(ListPrefix(userId))] else [])
        && medias == (if relists then Relisted(old(medias), relist) else old(medias))
      ensures userId == old(userId) && newPassword == old(newPassword)
    {
      if file.None? {
        return None;
      }
      var k := StartUpload(id);
      key := Some(k);
      SettleUpload(reply, relist);
    }

    /** The password input's `onChange`. */
    method SetNewPassword(text: string)
      requires Valid()
      modifies this
      ensures Valid()
      ensures newPassword == text
      ensures userId == old(userId) && medias == old(medias) && uploadStatus == old(uploadStatus)
      ensures timers == old(timers) && statusWrites == old(statusWrites) && requests == old(requests)
    {
      newPassword := text;
    }

    /** `handlePasswordUpdate`: nothing for an empty input; otherwise the
        update's wrapped result is alerted and the input is cleared only on
        success. */
    method HandlePasswordUpdate<D>(reply: Reply<D>) returns (alert: Option<string>)
      requires Valid()
      modifies this
      ensures Valid()
      ensures old(newPassword) == "" ==> alert.None? && newPassword == ""
      ensures old(newPassword) != "" && reply.error.None? ==> alert == Some(PasswordUpdatedAlert) && newPassword == ""
      ensures old(newPassword) != "" && reply.error.Some? ==>
        alert == Some(PasswordErrorPrefix + TranslateError(reply.error.value.message)) && newPassword == old(newPassword)
      ensures userId == old(userId) && medias == old(medias) && uploadStatus == old(uploadStatus)
      ensures timers == old(timers) && statusWrites == old(statusWrites) && requests == old(requests)
    {
      if newPassword == "" {
        return None;
      }
      match Wrap(reply)
      case Success(_) =>
        alert := Some(PasswordUpdatedAlert);
        newPassword := "";
      case Failure(message) =>
        alert := Some(PasswordErrorPrefix + message);
    }

  }
}
