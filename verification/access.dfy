/**
  The per-session album lock (`server/src/services/password.ts`): an album is
  locked while its `password.txt` holds a non-blank password and the session
  has not unlocked it; unlocking appends the album path to the session's list.
 */
module Password {
  import opened Wrappers
  import opened Text
  import opened FileSystem
  import opened Types
  import Paths
  import Config
  import Seqs

  const PasswordFile: string := "password.txt"

  /** `albumRelPath.replace(/^albums\//, '')`. */
  function StripAlbumsPrefix(p: string): (r: string)
    ensures StartsWith(p, "albums/") ==> p == "albums/" + r
    ensures !StartsWith(p, "albums/") ==> r == p
  {
    if StartsWith(p, "albums/") then p[7..] else p
  }

  /** The directory of the album `albumPath`, accepted with or without its `albums/` prefix. */
  function AlbumDirOf(root: Node, albumPath: string): Option<Node> {
    Lookup(root, Config.AlbumsDir + "/" + StripAlbumsPrefix(albumPath))
  }

  /** `getAlbumPassword`: the trimmed content of `password.txt`, or None when there is no such file. */
  function GetAlbumPassword(root: Node, albumPath: string): (r: Option<string>)
    ensures r.Some? <==> ReadText(AlbumDirOf(root, albumPath), PasswordFile).Some?
    ensures r.Some? ==> r.value == Trim(ReadText(AlbumDirOf(root, albumPath), PasswordFile).value)
    ensures r.Some? ==> Exists(AlbumDirOf(root, albumPath), PasswordFile)
  {
    var text := ReadText(AlbumDirOf(root, albumPath), PasswordFile);
    if text.Some? then Some(Trim(text.value)) else None
  }

  /** A password that locks the album: present and not blank. */
  predicate HasPassword(root: Node, albumPath: string) {
    var pw := GetAlbumPassword(root, albumPath);
    pw.Some? && pw.value != ""
  }

  /** `session.unlockedAlbums?.includes(albumPath) ?? false`. */
  predicate InUnlockedList(session: Session, albumPath: string) {
    session.unlockedAlbums.Some? && albumPath in session.unlockedAlbums.value
  }

  /** `isAlbumUnlocked`. */
  function IsAlbumUnlocked(root: Node, session: Session, albumPath: string): (r: bool)
    ensures !HasPassword(root, albumPath) ==> r
    ensures HasPassword(root, albumPath) ==> (r <==> InUnlockedList(session, albumPath))
    ensures r <==> !HasPassword(root, albumPath) || InUnlockedList(session, albumPath)
  {
    var password := GetAlbumPassword(root, albumPath);
    if password.None? || password.value == "" then true
    else InUnlockedList(session, albumPath)
  }

  /** `unlockAlbum`: creates the list when absent and appends the path unless it is already there. */
  function UnlockAlbum(session: Session, albumPath: string): (s: Session)
    ensures s.unlockedAlbums.Some?
    ensures albumPath in s.unlockedAlbums.value
    ensures var before := session.unlockedAlbums.GetOr([]);
      s.unlockedAlbums.value == before + (if albumPath in before then [] else [albumPath])
  {
    var before := session.unlockedAlbums.GetOr([]);
    Session(Some(if albumPath in before then before else before + [albumPath]))
  }

  /** A session list without repeats stays without repeats. */
  lemma UnlockKeepsDistinct(session: Session, albumPath: string)
    requires session.unlockedAlbums.Some? ==> Seqs.NoDup(session.unlockedAlbums.value)
    ensures Seqs.NoDup(UnlockAlbum(session, albumPath).unlockedAlbums.value)
  {
  }

  /** Unlocking twice is unlocking once. */
  lemma UnlockIdempotent(session: Session, albumPath: string)
    ensures UnlockAlbum(UnlockAlbum(session, albumPath), albumPath) == UnlockAlbum(session, albumPath)
  {
  }

  /** Nothing unlocked before is locked after, and the unlocked album is unlocked. */
  lemma UnlockThenUnlocked(root: Node, session: Session, albumPath: string, other: string)
    ensures IsAlbumUnlocked(root, UnlockAlbum(session, albumPath), albumPath)
    ensures IsAlbumUnlocked(root, session, other) ==> IsAlbumUnlocked(root, UnlockAlbum(session, albumPath), other)
  {
  }

  /** The list after unlocking `paths` one after another, starting from `session`. */
  function UnlockAll(session: Session, paths: seq<string>): (s: Session)
    ensures |paths| > 0 ==> s.unlockedAlbums.Some?
    decreases |paths|
  {
    if |paths| == 0 then session else UnlockAll(UnlockAlbum(session, paths[0]), paths[1..])
  }

  /** Whatever a fresh session unlocks, its list has no repeats and holds exactly the unlocked paths. */
  lemma {:induction false} UnlockAllDistinct(session: Session, paths: seq<string>)
    requires session.unlockedAlbums.Some? ==> Seqs.NoDup(session.unlockedAlbums.value)
    ensures var s := UnlockAll(session, paths);
      s.unlockedAlbums.Some? ==> Seqs.NoDup(s.unlockedAlbums.value)
    ensures forall q :: q in paths ==> InUnlockedList(UnlockAll(session, paths), q)
    ensures forall q :: InUnlockedList(session, q) ==> InUnlockedList(UnlockAll(session, paths), q)
    decreases |paths|
  {
    if |paths| > 0 {
      var next := UnlockAlbum(session, paths[0]);
      UnlockKeepsDistinct(session, paths[0]);
      UnlockAllDistinct(next, paths[1..]);
      forall q | q in paths
        ensures InUnlockedList(UnlockAll(session, paths), q)
      {
        if q != paths[0] {
          assert q in paths[1..];
        }
      }
    }
  }
}

/** The `/api/auth` routes (`server/src/routes/auth.ts`): `/check` and `/unlock`. */
module Auth {
  import opened Wrappers
  import opened FileSystem
  import opened Types
  import opened Password

  /** A request-body field is usable when it is present and not "" (JavaScript truthiness). */
  predicate Given(v: Option<string>) {
    v.Some? && v.value != ""
  }

  datatype CheckResponse =
    | CheckBadRequest
    | CheckResult(hasPassword: bool, isUnlocked: bool)

  /** `POST /api/auth/check`. */
  function Check(root: Node, session: Session, albumPath: Option<string>): (r: CheckResponse)
    ensures r.CheckBadRequest? <==> !Given(albumPath)
    ensures r.CheckResult? ==> r.hasPassword == HasPassword(root, albumPath.value)
    ensures r.CheckResult? ==> r.isUnlocked == IsAlbumUnlocked(root, session, albumPath.value)
    ensures r.CheckResult? && !r.hasPassword ==> r.isUnlocked
  {
    if !Given(albumPath) then CheckBadRequest
    else CheckResult(HasPassword(root, albumPath.value), IsAlbumUnlocked(root, session, albumPath.value))
  }

  datatype UnlockStatus =
    | UnlockBadRequest   // 400: albumPath and password required
    | NoPasswordNeeded   // success: the album has no password
    | UnlockSucceeded    // success: the album is now unlocked
    | IncorrectPassword  // 401

  /** `POST /api/auth/unlock`: the response and the session afterwards. */
  function Unlock(root: Node, session: Session, albumPath: Option<string>, password: Option<string>)
    : (r: (UnlockStatus, Session))
    ensures r.0 == UnlockBadRequest <==> !Given(albumPath) || !Given(password)
    ensures r.0 == NoPasswordNeeded <==> Given(albumPath) && Given(password) && !HasPassword(root, albumPath.value)
    ensures r.0 == UnlockSucceeded <==>
      (Given(albumPath) && Given(password) && HasPassword(root, albumPath.value)
       && password.value == GetAlbumPassword(root, albumPath.value).value)
    ensures r.0 == UnlockSucceeded ==> r.1 == UnlockAlbum(session, albumPath.value)
    ensures r.0 != UnlockSucceeded ==> r.1 == session
  {
    if !Given(albumPath) || !Given(password) then (UnlockBadRequest, session)
    else
      var correct := GetAlbumPassword(root, albumPath.value);
      if correct.None? || correct.value == "" then (NoPasswordNeeded, session)
      else if password.value == correct.value then (UnlockSucceeded, UnlockAlbum(session, albumPath.value))
      else (IncorrectPassword, session)
  }

  /** After a successful unlock, `/check` reports the album unlocked. */
  lemma UnlockThenCheck(root: Node, session: Session, albumPath: string, password: string)
    requires Unlock(root, session, Some(albumPath), Some(password)).0 == UnlockSucceeded
    ensures Check(root, Unlock(root, session, Some(albumPath), Some(password)).1, Some(albumPath))
      == CheckResult(true, true)
  {
    UnlockThenUnlocked(root, session, albumPath, albumPath);
  }

  /** A wrong password leaves a locked album locked. */
  lemma WrongPasswordKeepsLock(root: Node, session: Session, albumPath: string, password: string)
    requires Unlock(root, session, Some(albumPath), Some(password)).0 == IncorrectPassword
    requires !IsAlbumUnlocked(root, session, albumPath)
    ensures !IsAlbumUnlocked(root, Unlock(root, session, Some(albumPath), Some(password)).1, albumPath)
  {
  }

  /**
    The stored password is trimmed but the submitted one is not, so a password
    typed with a leading space is refused even when the rest matches.
   */
  lemma SubmittedPasswordIsNotTrimmed(root: Node, session: Session, albumPath: string)
    requires albumPath != "" && HasPassword(root, albumPath)
    ensures var stored := GetAlbumPassword(root, albumPath).value;
      Unlock(root, session, Some(albumPath), Some(" " + stored)).0 == IncorrectPassword
  {
    var stored := GetAlbumPassword(root, albumPath).value;
    var padded := " " + stored;
    assert |padded| != |stored|;
    assert padded != stored;
    var r := Unlock(root, session, Some(albumPath), Some(padded));
    assert Given(Some(albumPath)) && Given(Some(padded));
    OnlyIncorrectLeft(r.0);
  }

  /** Once the request, the missing password and the match are ruled out, the status is 401. */
  lemma OnlyIncorrectLeft(status: UnlockStatus)
    requires status != UnlockBadRequest && status != NoPasswordNeeded && status != UnlockSucceeded
    ensures status == IncorrectPassword
  {
  }
}

/** The API-key middleware (`server/src/middleware/apiKeyAuth.ts`). */
module ApiKeyAuth {
  import opened Wrappers

  datatype Outcome =
    | NotConfigured  // 500: the server has no key
    | InvalidKey     // 401
    | Next           // the request proceeds

  /** `apiKeyAuth` for the configured key `configured` and the `x-api-key` header `header`. */
  function Authorize(configured: string, header: Option<string>): (r: Outcome)
    ensures configured == "" ==> r == NotConfigured
    ensures configured != "" && header != Some(configured) ==> r == InvalidKey
    ensures r == Next <==> configured != "" && header == Some(configured)
  {
    if configured == "" then NotConfigured
    else if header != Some(configured) then InvalidKey
    else Next
  }

  /** Without a configured key, no header gets through; without a header, no request does. */
  lemma NoKeyNoEntry(configured: string, header: Option<string>)
    ensures Authorize("", header) == NotConfigured
    ensures Authorize(configured, None) != Next
  {
  }
}
