/**
 * The profile rules of `UserService`: changing the e-mail address and the
 * password, and replacing the avatar image, whose file name must carry one
 * of the accepted picture extensions.
 */
module Users {
  import opened JavaText
  import opened Store

  const EmailTaken := "Эта почта уже используется"
  const PasswordTooShort := "Пароль должен быть не короче 6 символов"
  const NoFile := "Файл не выбран"
  const BadFormat := "Допустимые форматы: jpg, png, gif, webp"
  const SaveFailed := "Не удалось сохранить файл"
  const AvatarDir := "/uploads/avatars/"
  const MinPasswordLength := 6

  /** The extensions an avatar may have, in lower case. */
  const AvatarExtensions: set<string> := {"jpg", "jpeg", "png", "gif", "webp"}

  /** `getExtension`: the text after the last '.', provided that dot is not
      the first character; null otherwise. */
  function GetExtension(name: Option<string>): (ext: Option<string>)
    ensures name.Null? ==> ext.Null?
    ensures name.Some? ==>
      (ext.Null? <==> forall k :: 0 < k < |name.value| ==> name.value[k] != '.')
    ensures ext.Some? ==>
      && |ext.value| + 2 <= |name.value|
      && name.value[|name.value| - |ext.value| - 1] == '.'
      && name.value[|name.value| - |ext.value|..] == ext.value
      && forall k :: 0 <= k < |ext.value| ==> ext.value[k] != '.'
  {
    if name.Null? then Null
    else
      var i := LastIndexOf(name.value, '.');
      if i > 0 then Some(name.value[i + 1..]) else Null
  }

  /** The stored file name `<uuid>.<ext>` has the validated extension. */
  lemma ExtensionOfStoredName(uuid: string, ext: string)
    requires |uuid| > 0
    requires forall k :: 0 <= k < |ext| ==> ext[k] != '.'
    ensures GetExtension(Some(uuid + "." + ext)) == Some(ext)
  {
    var name := uuid + "." + ext;
    var i := LastIndexOf(name, '.');
    assert name[|uuid|] == '.';
    assert forall k :: |uuid| < k < |name| ==> name[k] == ext[k - |uuid| - 1];
    assert i == |uuid|;
    assert name[i + 1..] == ext;
  }

  /** The whitelist test of `updateAvatar`: the lower-cased extension is one
      of the accepted ones. */
  predicate IsAvatarExtension(ext: string)
  {
    ToLowerCase(ext) in AvatarExtensions
  }

  /** The whitelist test accepts exactly the extensions that equal an
      accepted one when case is ignored. */
  lemma AvatarExtensionIgnoresCase(ext: string)
    ensures IsAvatarExtension(ext) <==> exists w :: w in AvatarExtensions && EqualsIgnoreCase(ext, w)
  {
    forall w | w in AvatarExtensions
      ensures ToLowerCase(ext) == w <==> EqualsIgnoreCase(ext, w)
    {
      assert ToLowerCase(w) == w;
      if EqualsIgnoreCase(ext, w) {
        assert forall k :: 0 <= k < |w| ==> ToLowerCase(ext)[k] == LowerChar(w[k]) == w[k];
      }
    }
  }

  /** An uploaded file, as far as the checks look at it. */
  datatype Upload = Upload(originalFilename: Option<string>, size: nat)

  /** `updateAvatar`. `uuid` is the random name the file is stored under and
      `copyFails` whether copying the upload to disk throws. */
  function UpdateAvatar(db: Db, userId: Id, file: Option<Upload>, uuid: string, copyFails: bool): (tx: Tx<string>)
    ensures tx.result.Err? ==> tx.db == db
    ensures file.Null? || file.value.size == 0 ==> tx.result == Err(NoFile)
    ensures file.Some? && file.value.size > 0 ==>
      var ext := GetExtension(file.value.originalFilename);
      (ext.Null? || !IsAvatarExtension(ext.value)) <==> tx.result == Err(BadFormat)
    ensures file.Some? && file.value.size > 0 ==>
      var ext := GetExtension(file.value.originalFilename);
      ext.Some? && IsAvatarExtension(ext.value) ==>
        && (userId !in db.users ==> tx.result == Err(UserNotFound))
        && (userId in db.users && copyFails ==> tx.result == Err(SaveFailed))
    ensures tx.result.Ok? ==>
      && file.Some? && file.value.size > 0
      && var ext := GetExtension(file.value.originalFilename);
         && ext.Some? && IsAvatarExtension(ext.value)
         && userId in db.users && !copyFails
         && tx.result.value == AvatarDir + uuid + "." + ext.value
         && tx.db == db.(users := db.users[userId := db.users[userId].(avatarPath := Some(tx.result.value))])
  {
    if file.Null? || file.value.size == 0 then Tx(db, Err(NoFile))
    else
      var ext := GetExtension(file.value.originalFilename);
      if ext.Null? || !IsAvatarExtension(ext.value) then Tx(db, Err(BadFormat))
      else if userId !in db.users then Tx(db, Err(UserNotFound))
      else if copyFails then Tx(db, Err(SaveFailed))
      else
        var path := AvatarDir + uuid + "." + ext.value;
        Tx(db.(users := db.users[userId := db.users[userId].(avatarPath := Some(path))]), Ok(path))
  }

  /** A stored avatar path names a file in the avatar directory whose own
      extension passes the whitelist again. */
  lemma StoredAvatarPassesWhitelist(db: Db, userId: Id, file: Option<Upload>, uuid: string, copyFails: bool)
    requires |uuid| > 0
    requires UpdateAvatar(db, userId, file, uuid, copyFails).result.Ok?
    ensures var path := UpdateAvatar(db, userId, file, uuid, copyFails).result.value;
      && path[..|AvatarDir|] == AvatarDir
      && var ext := GetExtension(Some(path[|AvatarDir|..]));
         ext.Some? && IsAvatarExtension(ext.value)
  {
    var path := UpdateAvatar(db, userId, file, uuid, copyFails).result.value;
    var ext := GetExtension(file.value.originalFilename).value;
    assert path[|AvatarDir|..] == uuid + "." + ext;
    ExtensionOfStoredName(uuid, ext);
  }

  /** An e-mail address another account already uses, compared without
      regard to case (`existsByEmailIgnoreCase`). */
  predicate EmailInUse(db: Db, email: string)
  {
    exists id :: id in db.users && db.users[id].email.Some?
      && ToLowerCase(db.users[id].email.value) == ToLowerCase(email)
  }

  /** The form an e-mail address is stored in. */
  function CanonicalEmail(email: string): string
  {
    ToLowerCase(Trim(email))
  }

  predicate IsPresent(s: Option<string>)
  {
    s.Some? && !IsBlank(s.value)
  }

  /** `updateProfile`. `encode` is the password encoder. */
  function UpdateProfile(db: Db, userId: Id, email: Option<string>, newPassword: Option<string>, encode: string -> string): (tx: Tx<User>)
    ensures tx.result.Err? ==> tx.db == db
    ensures userId !in db.users ==> tx.result == Err(UserNotFound)
    ensures userId in db.users && IsPresent(email) ==>
      var lower := CanonicalEmail(email.value);
      (Some(lower) != db.users[userId].email && EmailInUse(db, lower)) <==> tx.result == Err(EmailTaken)
    ensures tx.result.Ok? <==>
      && userId in db.users
      && !(IsPresent(email) && Some(CanonicalEmail(email.value)) != db.users[userId].email
           && EmailInUse(db, CanonicalEmail(email.value)))
      && !(IsPresent(newPassword) && |newPassword.value| < MinPasswordLength)
    ensures userId in db.users
      && !(IsPresent(email) && Some(CanonicalEmail(email.value)) != db.users[userId].email
           && EmailInUse(db, CanonicalEmail(email.value)))
      && IsPresent(newPassword) && |newPassword.value| < MinPasswordLength
      ==> tx.result == Err(PasswordTooShort)
    ensures tx.result.Err? && tx.result.message == PasswordTooShort ==>
      IsPresent(newPassword) && |newPassword.value| < MinPasswordLength
    ensures tx.result.Ok? ==>
      && userId in db.users
      && var u := db.users[userId];
         var u' := tx.result.value;
         && tx.db == db.(users := db.users[userId := u'])
         && u'.username == u.username && u'.avatarPath == u.avatarPath
         && u'.email == (if IsPresent(email) then Some(CanonicalEmail(email.value)) else u.email)
         && u'.passwordHash == (if IsPresent(newPassword) then encode(newPassword.value) else u.passwordHash)
         && (IsPresent(newPassword) ==> |newPassword.value| >= MinPasswordLength)
  {
    if userId !in db.users then Tx(db, Err(UserNotFound))
    else
      var u := db.users[userId];
      var lower := if IsPresent(email) then CanonicalEmail(email.value) else "";
      if IsPresent(email) && Some(lower) != u.email && EmailInUse(db, lower) then Tx(db, Err(EmailTaken))
      else if IsPresent(newPassword) && |newPassword.value| < MinPasswordLength then Tx(db, Err(PasswordTooShort))
      else
        var u' := u.(email := if IsPresent(email) then Some(lower) else u.email,
                     passwordHash := if IsPresent(newPassword) then encode(newPassword.value) else u.passwordHash);
        Tx(db.(users := db.users[userId := u']), Ok(u'))
  }

  /** Re-submitting the address a user already has is never a conflict, and
      a short new password is refused even when the address is fine. */
  lemma ProfileEdgeCases(db: Db, userId: Id, newPassword: Option<string>, encode: string -> string)
    requires userId in db.users && db.users[userId].email.Some?
    requires CanonicalEmail(db.users[userId].email.value) == db.users[userId].email.value
    ensures var tx := UpdateProfile(db, userId, db.users[userId].email, newPassword, encode);
      && (tx.result.Err? ==> tx.result == Err(PasswordTooShort) || tx.result == Err(EmailTaken))
      && (IsPresent(newPassword) && |newPassword.value| < MinPasswordLength ==> tx.result.Err?)
      && (tx.result.Ok? ==> tx.result.value.email == db.users[userId].email)
  {
  }

  /** A stored e-mail address is already in canonical form. */
  lemma CanonicalEmailIsStable(email: string)
    ensures CanonicalEmail(CanonicalEmail(email)) == CanonicalEmail(email)
  {
    var t := Trim(email);
    var l := ToLowerCase(t);
    assert IsTrimmed(l) by {
      if |l| > 0 {
        assert LowerChar(t[0]) == l[0];
      }
    }
    TrimOfTrimmed(l);
    ToLowerCaseIdempotent(t);
  }
}
