/** The database models of `app/core/models.py`: the recipe, tag and
    ingredient rows, the user account with its manager (`create_user`,
    `create_superuser`), the email normalisation the manager applies, and
    the upload path of a recipe image.

    The user table is a `UserStore` object whose `rows` map primary keys to
    saved rows; a `User` is an in-memory model instance whose fields the
    manager sets one by one before saving it. Password hashing is the
    `Hasher` parameter and the salt is a parameter, so nothing here depends
    on a particular hash function or on randomness. */
module CoreModels {
  import opened Common
  import opened Text

  /** A Tag or an Ingredient row: an id, the owning user's id, and a name. */
  datatype Attr = Attr(id: nat, owner: nat, name: string) {
    /** `Tag.__str__` / `Ingredient.__str__`. */
    function ToString(): string {
      name
    }
  }

  /** A Recipe row. `price` is in hundredths (two decimal places); `tags` and
      `ingredients` are the ids the recipe's many-to-many relations link. */
  datatype Recipe = Recipe(
    id: nat,
    owner: nat,
    title: string,
    description: string,
    timeMinutes: int,
    price: int,
    link: string,
    tags: set<nat>,
    ingredients: set<nat>,
    image: Option<string>)
  {
    /** `Recipe.__str__`. */
    function ToString(): string {
      title
    }
  }

  /** The string form of a recipe is its title; of a tag or an ingredient,
      its name. */
  lemma DisplayStrings(r: Recipe, a: Attr)
    ensures r.ToString() == r.title
    ensures a.ToString() == a.name
  {
  }

  // ---------------------------------------------------------------------
  // Recipe image upload path
  // ---------------------------------------------------------------------

  /** One of the 32 lower-case hexadecimal digits of a UUID. */
  function HexChar(d: nat): (c: char)
    requires d < 16
    ensures c != '/' && c != '.'
  {
    "0123456789abcdef"[d]
  }

  /** The last `count` hexadecimal digits of `u`, most significant first. */
  function HexDigits(u: nat, count: nat): (s: string)
    ensures |s| == count
    ensures forall i :: 0 <= i < count ==> s[i] != '/' && s[i] != '.'
  {
    if count == 0 then [] else HexDigits(u / 16, count - 1) + [HexChar(u % 16)]
  }

  const UuidLimit: nat := 0x1_0000_0000_0000_0000_0000_0000_0000_0000

  /** `str(uuid)` for the UUID whose 128-bit value is `u`:
      8-4-4-4-12 hexadecimal digits separated by dashes. */
  function UuidString(u: nat): (s: string)
    requires u < UuidLimit
    ensures |s| == 36
    ensures s[8] == '-' && s[13] == '-' && s[18] == '-' && s[23] == '-'
    ensures '/' !in s && '.' !in s
  {
    var h := HexDigits(u, 32);
    h[..8] + "-" + h[8..12] + "-" + h[12..16] + "-" + h[16..20] + "-" + h[20..]
  }

  /** `os.path.splitext(p)` (POSIX): the extension runs from the last dot of
      the last path component, unless that component is only dots before it. */
  function SplitExt(p: string): (r: (string, string))
    ensures r.0 + r.1 == p
    ensures r.1 == [] || (r.1[0] == '.' && '.' !in r.1[1..] && '/' !in r.1)
  {
    var sepIndex := RFind(p, '/');
    var dotIndex := RFind(p, '.');
    if dotIndex > sepIndex && exists i :: sepIndex < i < dotIndex && p[i] != '.' then
      assert p[..dotIndex] + p[dotIndex..] == p;
      assert forall j :: dotIndex < j < |p| ==> p[j] != '.' && p[j] != '/';
      (p[..dotIndex], p[dotIndex..])
    else
      assert p + [] == p;
      (p, [])
  }

  /** `os.path.join(a, b)` (POSIX). */
  function PathJoin(a: string, b: string): string {
    if b != [] && b[0] == '/' then b
    else if a == [] || a[|a| - 1] == '/' then a + b
    else a + "/" + b
  }

  /** `recipe_image_file_path(instance, filename)`, with `uuid` the value
      `uuid.uuid4()` drew. */
  function RecipeImageFilePath(uuid: nat, filename: string): (path: string)
    requires uuid < UuidLimit
  {
    var ext := SplitExt(filename).1;
    PathJoin(PathJoin("uploads", "recipe"), UuidString(uuid) + ext)
  }

  /** The upload path is `uploads/recipe/<uuid><ext>`, where `<ext>` is the
      extension of the uploaded file's name. */
  lemma ImagePathShape(uuid: nat, filename: string)
    requires uuid < UuidLimit
    ensures RecipeImageFilePath(uuid, filename) == "uploads/recipe/" + UuidString(uuid) + SplitExt(filename).1
  {
    var u := UuidString(uuid);
    var ext := SplitExt(filename).1;
    var dir := PathJoin("uploads", "recipe");
    UploadDirectory();
    assert (u + ext)[0] != '/' by {
      assert (u + ext)[0] == u[0] && u[0] in u;
    }
    assert dir + "/" + (u + ext) == (dir + "/") + u + ext;
  }

  /** The directory part of every upload path. */
  lemma UploadDirectory()
    ensures PathJoin("uploads", "recipe") + "/" == "uploads/recipe/"
    ensures PathJoin("uploads", "recipe") != [] && PathJoin("uploads", "recipe")[|PathJoin("uploads", "recipe")| - 1] != '/'
  {
    assert "recipe"[0] != '/' && "uploads"[6] != '/';
    assert "uploads" + "/" + "recipe" + "/" == "uploads/recipe/";
  }

  /** A name `stem + "." + e` whose last component has a character other
      than a dot before that last dot has the extension `"." + e`. */
  lemma SplitExtOfDotted(stem: string, e: string)
    requires '.' !in e && '/' !in e
    requires exists i :: RFind(stem, '/') < i < |stem| && stem[i] != '.'
    ensures SplitExt(stem + "." + e) == (stem, "." + e)
  {
    var p := stem + "." + e;
    assert p == stem + ("." + e);
    RFindAppend(stem, "." + e, '/');
    assert p[|stem| + 1..] == e;
    RFindLast(p, '.', |stem|);
    var i :| RFind(stem, '/') < i < |stem| && stem[i] != '.';
    assert p[i] == stem[i];
    assert p[..|stem|] == stem && p[|stem|..] == "." + e;
  }

  /** The stored image keeps the uploaded file's extension: `photo.jpg`
      becomes `uploads/recipe/<uuid>.jpg`. */
  lemma ImagePathKeepsExtension(uuid: nat, stem: string, e: string)
    requires uuid < UuidLimit
    requires '.' !in e && '/' !in e
    requires exists i :: RFind(stem, '/') < i < |stem| && stem[i] != '.'
    ensures RecipeImageFilePath(uuid, stem + "." + e) == "uploads/recipe/" + UuidString(uuid) + "." + e
  {
    SplitExtOfDotted(stem, e);
    ImagePathDotted(uuid, stem + "." + e, e);
  }

  lemma ImagePathDotted(uuid: nat, p: string, e: string)
    requires uuid < UuidLimit
    requires SplitExt(p).1 == "." + e
    ensures RecipeImageFilePath(uuid, p) == "uploads/recipe/" + UuidString(uuid) + "." + e
  {
    ImagePathShape(uuid, p);
  }

  /** A file name without an extension gives a path without one. */
  lemma ImagePathWithoutExtension(uuid: nat, filename: string)
    requires uuid < UuidLimit
    requires '.' !in filename
    ensures RecipeImageFilePath(uuid, filename) == "uploads/recipe/" + UuidString(uuid)
  {
    assert RFind(filename, '.') == -1;
    ImagePathShape(uuid, filename);
    assert UuidString(uuid) + [] == UuidString(uuid);
  }

  // ---------------------------------------------------------------------
  // Email normalisation (BaseUserManager.normalize_email)
  // ---------------------------------------------------------------------

  /** `normalize_email(email)`: strip the address and lower-case the domain
      part, after its last '@'. An address without '@' is returned as given,
      not even stripped. */
  function NormalizeEmail(email: string): string
  {
    var t := Strip(email);
    var k := RFind(t, '@');
    if k < 0 then email else t[..k] + "@" + Lower(t[k + 1..])
  }

  /** How a stripped address with its last '@' at `k` normalises. */
  lemma NormalizeStrippedEmail(email: string, k: int)
    requires IsStripped(email)
    requires 0 <= k < |email| && RFind(email, '@') == k
    ensures NormalizeEmail(email) == email[..k] + "@" + Lower(email[k + 1..])
  {
    StripProperties(email, StrSpace);
  }

  /** The local part is kept as it is and the domain is lower-cased. */
  lemma NormalizeEmailParts(local: string, domain: string)
    requires '@' !in domain
    requires IsStripped(local + "@" + domain)
    ensures NormalizeEmail(local + "@" + domain) == local + "@" + Lower(domain)
  {
    var e := local + "@" + domain;
    assert e[|local| + 1..] == domain;
    RFindLast(e, '@', |local|);
    NormalizeStrippedEmail(e, |local|);
    assert e[..|local|] == local;
  }

  /** Every character of `strip(s)` is a character of `s`. */
  lemma StripKeepsCharacters(s: string, c: char)
    requires c in Strip(s)
    ensures c in s
  {
    var t := TrimStart(s, StrSpace);
    var r := TrimEnd(t, StrSpace);
    assert Strip(s) == r;
    var i :| 0 <= i < |r| && r[i] == c;
    assert r[i] == t[i];
    assert t[i] == s[|s| - |t| + i];
  }

  /** An address without '@' is left unchanged. */
  lemma NormalizeEmailWithoutAt(email: string)
    requires '@' !in email
    ensures NormalizeEmail(email) == email
  {
    var t := Strip(email);
    var k := RFind(t, '@');
    if k >= 0 {
      StripKeepsCharacters(email, '@');
      assert false;
    }
  }

  /** Normalising an address twice changes nothing more. */
  lemma NormalizeEmailIdempotent(email: string)
    ensures NormalizeEmail(NormalizeEmail(email)) == NormalizeEmail(email)
  {
    if RFind(Strip(email), '@') >= 0 {
      NormalizeEmailWithAtStripped(email);
    } else {
      NormalizeEmailWithoutAtStripped(email);
    }
  }

  lemma NormalizeEmailWithAtStripped(email: string)
    requires RFind(Strip(email), '@') >= 0
    ensures NormalizeEmail(NormalizeEmail(email)) == NormalizeEmail(email)
  {
    var t := Strip(email);
    var k := RFind(t, '@');
    var local := t[..k];
    var domain := t[k + 1..];
    assert NormalizeEmail(email) == local + "@" + Lower(domain);
    StripProperties(email, StrSpace);
    AroundIndex(t, k);
    NormalizedAddressIsFixed(local, domain);
  }

  /** A text is what comes before index `k`, the character there, and what follows. */
  lemma AroundIndex(s: string, k: nat)
    requires k < |s|
    ensures s == s[..k] + [s[k]] + s[k + 1..]
  {
    assert s == s[..k] + s[k..];
    assert s[k..] == [s[k]] + s[k + 1..];
  }

  /** An address whose domain is already lower-cased normalises to itself. */
  lemma NormalizedAddressIsFixed(local: string, domain: string)
    requires '@' !in domain && IsStripped(local + "@" + domain)
    ensures NormalizeEmail(local + "@" + Lower(domain)) == local + "@" + Lower(domain)
  {
    LowerProperties(domain);
    LowerKeepsStripped(local, domain);
    NormalizeEmailParts(local, Lower(domain));
  }

  /** Lower-casing the domain of a stripped address keeps it stripped. */
  lemma LowerKeepsStripped(local: string, domain: string)
    requires IsStripped(local + "@" + domain)
    ensures IsStripped(local + "@" + Lower(domain))
  {
    var t := local + "@" + domain;
    var r := local + "@" + Lower(domain);
    LowerProperties(domain);
    if local != [] {
      assert r[0] == t[0];
    }
    if domain != [] {
      assert r[|r| - 1] == Lower(domain)[|domain| - 1];
      assert t[|t| - 1] == domain[|domain| - 1];
    }
  }

  lemma NormalizeEmailWithoutAtStripped(email: string)
    requires RFind(Strip(email), '@') < 0
    ensures NormalizeEmail(NormalizeEmail(email)) == NormalizeEmail(email)
  {
  }

  // ---------------------------------------------------------------------
  // Users
  // ---------------------------------------------------------------------

  /** A stored password: the empty text a new user starts with, the
      unusable-password marker `set_password(None)` stores, or a salt with a
      digest. No raw password checks against the first two. */
  datatype Password = Blank | Unusable | Salted(salt: string, digest: string)

  /** The password hash function: (salt, raw password) to digest. */
  type Hasher = (string, string) -> string

  /** `set_password(raw)`: a present password is stored only as a digest. */
  function MakePassword(raw: Option<string>, salt: string, hasher: Hasher): Password
  {
    match raw
    case None => Unusable
    case Some(pw) => Salted(salt, hasher(salt, pw))
  }

  /** `check_password(raw)`: hash `raw` with the stored salt and compare. */
  predicate CheckPassword(stored: Password, raw: string, hasher: Hasher) {
    stored.Salted? && hasher(stored.salt, raw) == stored.digest
  }

  /** A password that was set checks; none checks after `set_password(None)`;
      and when the hash separates passwords, no other password checks. */
  lemma CheckPasswordAfterSet(raw: string, other: string, salt: string, hasher: Hasher)
    ensures CheckPassword(MakePassword(Some(raw), salt, hasher), raw, hasher)
    ensures !CheckPassword(MakePassword(None, salt, hasher), other, hasher)
    ensures hasher(salt, other) != hasher(salt, raw) ==>
              !CheckPassword(MakePassword(Some(raw), salt, hasher), other, hasher)
  {
  }

  /** The keyword arguments `create_user` passes through to the model. */
  datatype ExtraFields = ExtraFields(
    name: Option<string>,
    isActive: Option<bool>,
    isStaff: Option<bool>,
    isSuperuser: Option<bool>)

  const NoExtraFields := ExtraFields(None, None, None, None)

  /** A saved user row. */
  datatype UserRow = UserRow(
    email: string,
    name: string,
    isActive: bool,
    isStaff: bool,
    isSuperuser: bool,
    password: Password)

  /** An in-memory `User` model instance. */
  class User {
    var pk: Option<nat>
    var email: string
    var name: string
    var isActive: bool
    var isStaff: bool
    var isSuperuser: bool
    var password: Password

    /** `User(email=email, **extra)`: fields not given take their defaults:
        an empty name, active, not staff, not superuser, an empty password
        text, and no primary key until the first save. */
    constructor (email: string, extra: ExtraFields)
      ensures pk == None && this.email == email && password == Blank
      ensures name == extra.name.GetOr("")
      ensures isActive == extra.isActive.GetOr(true)
      ensures isStaff == extra.isStaff.GetOr(false)
      ensures isSuperuser == extra.isSuperuser.GetOr(false)
    {
      pk := None;
      this.email := email;
      name := extra.name.GetOr("");
      isActive := extra.isActive.GetOr(true);
      isStaff := extra.isStaff.GetOr(false);
      isSuperuser := extra.isSuperuser.GetOr(false);
      password := Blank;
    }

    /** The row `save()` writes for this instance. */
    function Row(): UserRow
      reads this
    {
      UserRow(email, name, isActive, isStaff, isSuperuser, password)
    }

    /** `set_password(raw)`: only the password field changes. */
    method SetPassword(raw: Option<string>, salt: string, hasher: Hasher)
      modifies this`password
      ensures password == MakePassword(raw, salt, hasher)
    {
      password := MakePassword(raw, salt, hasher);
    }
  }

  /** `self.model(email=email, **extra)` followed by `set_password(password)`:
      a fresh, unsaved instance with the extra fields or their defaults and
      the hashed password. */
  method NewUser(email: string, password: Option<string>, extra: ExtraFields,
                 salt: string, hasher: Hasher) returns (user: User)
    ensures fresh(user) && user.pk == None
    ensures user.Row() == UserRow(email, extra.name.GetOr(""), extra.isActive.GetOr(true),
                                  extra.isStaff.GetOr(false), extra.isSuperuser.GetOr(false),
                                  MakePassword(password, salt, hasher))
  {
    user := new User(email, extra);
    user.SetPassword(password, salt, hasher);
  }

  /** The user table, keyed by primary key; the email column is unique. */
  class UserStore {
    var rows: map<nat, UserRow>
    var nextPk: nat

    ghost predicate Valid()
      reads this
    {
      && (forall k :: k in rows ==> k < nextPk)
      && (forall k1, k2 :: k1 in rows && k2 in rows && rows[k1].email == rows[k2].email ==> k1 == k2)
    }

    constructor ()
      ensures Valid() && rows == map[] && nextPk == 1
    {
      rows := map[];
      nextPk := 1;
    }

    /** Some row other than `except` already holds `email`. */
    predicate EmailTaken(email: string, except: Option<nat>)
      reads this
    {
      exists k :: k in rows && rows[k].email == email && except != Some(k)
    }

    /** `user.save()`: inserts the instance (assigning the next primary key)
        or overwrites its row; fails, writing nothing, when another row
        already has its email. */
    method Save(u: User) returns (r: Result<nat>)
      requires Valid()
      modifies this, u`pk
      ensures Valid()
      ensures r.Ok? <==> !old(EmailTaken(u.email, u.pk))
      ensures r.Ok? ==> u.pk == Some(r.value) && rows == old(rows)[r.value := u.Row()]
      ensures r.Ok? && old(u.pk).Some? ==> r.value == old(u.pk).value
      ensures r.Ok? && old(u.pk).None? ==> r.value == old(nextPk) && r.value !in old(rows)
      ensures r.Err? ==> r.error == DuplicateEmail && rows == old(rows) && u.pk == old(u.pk)
      ensures nextPk >= old(nextPk)
    {
      if EmailTaken(u.email, u.pk) {
        return Err(DuplicateEmail);
      }
      var k: nat;
      if u.pk.None? {
        k := nextPk;
        u.pk := Some(k);
      } else {
        k := u.pk.value;
      }
      rows := rows[k := u.Row()];
      if nextPk <= k {
        nextPk := k + 1;
      }
      r := Ok(k);
    }

    /** Saving a user again under its own email cannot clash. */
    lemma SavedEmailIsFree(u: User)
      requires Valid()
      requires u.pk.Some? && u.pk.value in rows && rows[u.pk.value].email == u.email
      ensures !EmailTaken(u.email, u.pk)
    {
    }

    /** `UserManager.create_user(email, password, **extra)`: an empty email
        raises `ValueError` and stores nothing; otherwise the email is
        normalised, the password hashed, the other fields passed through,
        and the user saved as a new row. */
    method CreateUser(email: string, password: Option<string>, extra: ExtraFields,
                      salt: string, hasher: Hasher) returns (r: Result<User>)
      requires Valid()
      modifies this
      ensures Valid()
      ensures email == [] ==> r == Err(MissingEmail)
      ensures r.Ok? <==> email != [] && !old(EmailTaken(NormalizeEmail(email), None))
      ensures r.Err? ==> rows == old(rows)
      ensures r.Ok? ==>
        && fresh(r.value)
        && r.value.pk == Some(old(nextPk))
        && r.value.email == NormalizeEmail(email)
        && r.value.password == MakePassword(password, salt, hasher)
        && (password.Some? ==> CheckPassword(r.value.password, password.value, hasher))
        && r.value.name == extra.name.GetOr("")
        && r.value.isActive == extra.isActive.GetOr(true)
        && r.value.isStaff == extra.isStaff.GetOr(false)
        && r.value.isSuperuser == extra.isSuperuser.GetOr(false)
        && old(nextPk) !in old(rows)
        && rows == old(rows)[old(nextPk) := r.value.Row()]
    {
      if email == [] {
        return Err(MissingEmail);
      }
      var normalized := NormalizeEmail(email);
      var user := NewUser(normalized, password, extra, salt, hasher);
      var saved := Save(user);
      if saved.Err? {
        return Err(saved.error);
      }
      assert user.email == normalized && user.pk == Some(old(nextPk));
      return Ok(user);
    }

    /** The second half of `create_superuser`: raise a saved user's flags and
        save it again, which overwrites its own row. */
    method Promote(user: User)
      requires Valid()
      requires user.pk.Some? && user.pk.value in rows && rows[user.pk.value].email == user.email
      modifies this, user
      ensures Valid()
      ensures user.isStaff && user.isSuperuser
      ensures user.pk == old(user.pk) && user.email == old(user.email)
      ensures user.name == old(user.name) && user.isActive == old(user.isActive)
      ensures user.password == old(user.password)
      ensures rows == old(rows)[user.pk.value := user.Row()]
    {
      user.isStaff := true;
      user.isSuperuser := true;
      SavedEmailIsFree(user);
      var saved := Save(user);
      assert saved.Ok?;
    }

    /** `UserManager.create_superuser(email, password)`: `create_user`, then
        the staff and superuser flags are set and the row saved again. */
    method CreateSuperuser(email: string, password: string, salt: string, hasher: Hasher)
      returns (r: Result<User>)
      requires Valid()
      modifies this
      ensures Valid()
      ensures r.Ok? <==> email != [] && !old(EmailTaken(NormalizeEmail(email), None))
      ensures r.Err? ==> rows == old(rows)
      ensures r.Ok? ==>
        && fresh(r.value)
        && r.value.pk == Some(old(nextPk))
        && r.value.isStaff && r.value.isSuperuser && r.value.isActive
        && r.value.email == NormalizeEmail(email)
        && CheckPassword(r.value.password, password, hasher)
        && rows == old(rows)[old(nextPk) := r.value.Row()]
    {
      var created := CreateUser(email, Some(password), NoExtraFields, salt, hasher);
      if created.Err? {
        return created;
      }
      var user := created.value;
      Promote(user);
      return Ok(user);
    }
  }
}
