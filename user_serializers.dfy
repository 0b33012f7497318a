/** The user serializers of `app/user/serializers.py`: the field rules of
    `UserSerializer` (a password of at least five characters that is never
    written back out), registration through `create`, profile changes
    through `update`, and the credential check of `AuthTokenSerializer`.

    Request data is a map from field name to submitted text. The dictionaries
    the serializer methods change in place (`validated_data`, `attrs`) are
    `Dict` objects. `authenticate` is a function parameter. */
module UserSerializers {
  import opened Common
  import opened Text
  import opened CoreModels

  /** A Python dictionary with string keys, changed in place. */
  class Dict<V> {
    var entries: map<string, V>

    constructor (entries: map<string, V>)
      ensures this.entries == entries
    {
      this.entries := entries;
    }

    /** `d.get(key)`. */
    function Get(key: string): Option<V>
      reads this
    {
      if key in entries then Some(entries[key]) else None
    }

    /** `d.pop(key, None)`: removes the key and returns its value, if any. */
    method Pop(key: string) returns (v: Option<V>)
      modifies this
      ensures v == old(Get(key))
      ensures entries == old(entries) - {key}
    {
      v := Get(key);
      entries := entries - {key};
    }

    /** `d[key] = value`. */
    method Put(key: string, value: V)
      modifies this
      ensures entries == old(entries)[key := value]
    {
      entries := entries[key := value];
    }
  }

  // ---------------------------------------------------------------------
  // UserSerializer field rules
  // ---------------------------------------------------------------------

  /** `Meta.fields`. */
  const UserFields: set<string> := {"email", "password", "name"}

  /** `extra_kwargs`: the password is accepted as input but never output. */
  const WriteOnly: set<string> := {"password"}

  /** The fewest characters a field accepts: five for the password. */
  function MinLength(field: string): nat {
    if field == "password" then 5 else 0
  }

  /** The most characters a field accepts: the model's `max_length` (255 for
      the email and the name, 128 for the stored password). */
  function MaxLength(field: string): nat {
    if field == "password" then 128 else 255
  }

  /** One submitted field after the serializer's field checks: white space is
      trimmed, and the trimmed text must be nonempty and within the field's
      length bounds. */
  function CleanField(field: string, value: string): (r: Result<string>)
    ensures r.Ok? <==> Strip(value) != [] && MinLength(field) <= |Strip(value)| <= MaxLength(field)
    ensures r.Ok? ==> r.value == Strip(value)
    ensures r.Err? ==> r.error == Invalid({field})
  {
    var t := Strip(value);
    if t == [] || |t| < MinLength(field) || |t| > MaxLength(field) then Err(Invalid({field}))
    else Ok(t)
  }

  /** The field is refused: its value fails the checks, or it is missing
      from a full (not partial) submission. */
  predicate FieldFails(data: map<string, string>, partial: bool, field: string) {
    if field in data then CleanField(field, data[field]).Err? else !partial
  }

  /** The serializer fields that are refused. */
  function FailingFields(data: map<string, string>, partial: bool): set<string> {
    set field | field in UserFields && FieldFails(data, partial, field)
  }

  /** The trimmed values of the serializer fields that pass. */
  function CleanedFields(data: map<string, string>): map<string, string> {
    map field | field in UserFields && field in data && CleanField(field, data[field]).Ok?
              :: CleanField(field, data[field]).value
  }

  /** `is_valid()` of a `UserSerializer`: either every refused field is
      reported, or the validated data holds the trimmed value of each
      serializer field that was submitted (all three in a full submission),
      each nonempty and within its bounds. Other keys are ignored. */
  function ValidateUserData(data: map<string, string>, partial: bool): (r: Result<map<string, string>>)
    ensures r.Err? <==> FailingFields(data, partial) != {}
    ensures r.Err? ==> r.error == Invalid(FailingFields(data, partial))
    ensures r.Ok? ==> ValidatedShape(data, partial, r.value)
  {
    var failing := FailingFields(data, partial);
    if failing != {} then Err(Invalid(failing))
    else
      CleanedFieldsShape(data, partial);
      Ok(CleanedFields(data))
  }

  /** What validated data looks like. */
  ghost predicate ValidatedShape(data: map<string, string>, partial: bool, v: map<string, string>) {
    && v.Keys == UserFields * data.Keys
    && (!partial ==> v.Keys == UserFields)
    && (forall field :: field in v ==>
          v[field] == Strip(data[field]) && v[field] != []
          && MinLength(field) <= |v[field]| <= MaxLength(field))
    && ("password" in v ==> |v["password"]| >= 5)
  }

  /** With no refused field, every submitted serializer field is kept, and
      in a full submission every serializer field was submitted. */
  lemma CleanedFieldsShape(data: map<string, string>, partial: bool)
    requires FailingFields(data, partial) == {}
    ensures ValidatedShape(data, partial, CleanedFields(data))
  {
    var failing := FailingFields(data, partial);
    var v := CleanedFields(data);
    forall field | field in UserFields
      ensures field in data ==> CleanField(field, data[field]).Ok?
      ensures !partial ==> field in data
    {
      assert field !in failing;
    }
  }

  /** A refused field makes validation fail and is named in the error. */
  lemma ValidateUserDataRejects(data: map<string, string>, partial: bool, field: string)
    requires field in UserFields
    requires FieldFails(data, partial, field)
    ensures ValidateUserData(data, partial).Err?
    ensures field in ValidateUserData(data, partial).error.fields
  {
    assert field in FailingFields(data, partial);
  }

  /** A password that is shorter than five characters once trimmed is
      rejected, in a registration and in a profile change alike. */
  lemma ShortPasswordRejected(data: map<string, string>, partial: bool, password: string)
    requires |Strip(password)| < 5
    ensures ValidateUserData(data["password" := password], partial).Err?
    ensures "password" in ValidateUserData(data["password" := password], partial).error.fields
  {
    ValidateUserDataRejects(data["password" := password], partial, "password");
  }

  /** `to_representation(user)`: the readable serializer fields. */
  function ToRepresentation(row: UserRow): (out: map<string, string>)
  {
    map field | field in UserFields - WriteOnly :: if field == "email" then row.email else row.name
  }

  /** The output is the email and the name; the password, being write-only,
      never appears. */
  lemma RepresentationHidesPassword(row: UserRow)
    ensures ToRepresentation(row).Keys == {"email", "name"}
    ensures ToRepresentation(row)["email"] == row.email
    ensures ToRepresentation(row)["name"] == row.name
    ensures "password" !in ToRepresentation(row)
  {
    assert UserFields - WriteOnly == {"email", "name"};
  }

  // ---------------------------------------------------------------------
  // create and update
  // ---------------------------------------------------------------------

  /** The row `create_user(**validated)` stores: the email normalised, the
      name passed through (empty when absent), the model's flag defaults,
      and the password hashed. */
  function CreatedRow(validated: map<string, string>, salt: string, hasher: Hasher): UserRow
    requires "email" in validated
  {
    UserRow(
      NormalizeEmail(validated["email"]),
      if "name" in validated then validated["name"] else "",
      true, false, false,
      MakePassword(if "password" in validated then Some(validated["password"]) else None, salt, hasher))
  }

  /** `create(validated_data)`: `create_user(**validated_data)`. The email is
      its first argument, so a call without one is a `TypeError`; the
      password is its second, and the name passes through to the model. */
  method Create(store: UserStore, validated: map<string, string>, salt: string, hasher: Hasher)
    returns (r: Result<User>)
    requires store.Valid()
    modifies store
    ensures store.Valid()
    ensures "email" !in validated ==> r == Err(MissingArgument("email"))
    ensures r.Err? ==> store.rows == old(store.rows)
    ensures "email" in validated ==>
      (r.Ok? <==> validated["email"] != [] && !old(store.EmailTaken(NormalizeEmail(validated["email"]), None)))
    ensures r.Ok? ==>
      && fresh(r.value)
      && r.value.Row() == CreatedRow(validated, salt, hasher)
      && store.rows == old(store.rows)[old(store.nextPk) := r.value.Row()]
  {
    if "email" !in validated {
      return Err(MissingArgument("email"));
    }
    var name := if "name" in validated then Some(validated["name"]) else None;
    var password := if "password" in validated then Some(validated["password"]) else None;
    r := store.CreateUser(validated["email"], password, ExtraFields(name, None, None, None), salt, hasher);
  }

  /** A registration (`POST` to the create view): validate the submission,
      create the user, and answer with its representation. A refused
      submission, such as one with a short password, stores nothing. */
  method Register(store: UserStore, data: map<string, string>, salt: string, hasher: Hasher)
    returns (r: Result<map<string, string>>)
    requires store.Valid()
    modifies store
    ensures store.Valid()
    ensures ValidateUserData(data, false).Err? ==>
      r == Err(ValidateUserData(data, false).error) && store.rows == old(store.rows)
    ensures r.Err? ==> store.rows == old(store.rows)
    ensures r.Ok? ==>
      && ValidateUserData(data, false).Ok?
      && var row := CreatedRow(ValidateUserData(data, false).value, salt, hasher);
      && r.value == ToRepresentation(row)
      && "password" !in r.value
      && store.rows == old(store.rows)[old(store.nextPk) := row]
  {
    var validated := ValidateUserData(data, false);
    if validated.Err? {
      return Err(validated.error);
    }
    var user := Create(store, validated.value, salt, hasher);
    if user.Err? {
      return Err(user.error);
    }
    var row := user.value.Row();
    RepresentationHidesPassword(row);
    return Ok(ToRepresentation(row));
  }

  /** `setattr(instance, attr, value)` for each validated field. */
  method AssignFields(instance: User, fields: map<string, string>)
    modifies instance`email, instance`name
    ensures instance.email == (if "email" in fields then fields["email"] else old(instance.email))
    ensures instance.name == (if "name" in fields then fields["name"] else old(instance.name))
  {
    if "email" in fields {
      instance.email := fields["email"];
    }
    if "name" in fields {
      instance.name := fields["name"];
    }
  }

  /** The second half of `update`: hash in a new password and save the
      user again over its own row. */
  method SavePassword(instance: User, raw: string, store: UserStore, salt: string, hasher: Hasher)
    requires store.Valid()
    requires instance.pk.Some? && instance.pk.value in store.rows
    requires store.rows[instance.pk.value].email == instance.email
    modifies instance`password, instance`pk, store
    ensures store.Valid()
    ensures instance.pk == old(instance.pk)
    ensures instance.password == MakePassword(Some(raw), salt, hasher)
    ensures store.rows == old(store.rows)[instance.pk.value := instance.Row()]
  {
    instance.SetPassword(Some(raw), salt, hasher);
    store.SavedEmailIsFree(instance);
    var saved := store.Save(instance);
    assert saved.Ok?;
  }

  /** `update(instance, validated_data)`: the password is popped out of the
      validated data, the remaining fields are set on the user as given and
      the user saved; then a nonempty password is hashed in and the user
      saved again. A save that clashes with another user's email fails. */
  method Update(instance: User, validated: Dict<string>, store: UserStore, salt: string, hasher: Hasher)
    returns (r: Result<User>)
    requires store.Valid()
    modifies instance, validated, store
    ensures store.Valid()
    ensures validated.entries == old(validated.entries) - {"password"}
    ensures instance.email == (if "email" in old(validated.entries) then old(validated.entries)["email"] else old(instance.email))
    ensures instance.name == (if "name" in old(validated.entries) then old(validated.entries)["name"] else old(instance.name))
    ensures instance.isActive == old(instance.isActive) && instance.isStaff == old(instance.isStaff)
    ensures instance.isSuperuser == old(instance.isSuperuser)
    ensures var email := instance.email; r.Ok? <==> !old(store.EmailTaken(email, instance.pk))
    ensures r.Err? ==> r.error == DuplicateEmail && store.rows == old(store.rows)
                       && instance.password == old(instance.password)
    ensures r.Ok? ==>
      && r.value == instance
      && instance.pk.Some?
      && (old(instance.pk).Some? ==> instance.pk == old(instance.pk))
      && instance.password == (if "password" in old(validated.entries) && old(validated.entries)["password"] != []
                               then MakePassword(Some(old(validated.entries)["password"]), salt, hasher)
                               else old(instance.password))
      && store.rows == old(store.rows)[instance.pk.value := instance.Row()]
  {
    var password := validated.Pop("password");
    AssignFields(instance, validated.entries);
    var saved := store.Save(instance);
    if saved.Err? {
      return Err(saved.error);
    }
    ghost var k := instance.pk.value;
    ghost var savedRows := store.rows;
    assert savedRows == old(store.rows)[k := instance.Row()];
    if password.Some? && password.value != [] {
      SavePassword(instance, password.value, store, salt, hasher);
      assert store.rows == old(store.rows)[k := instance.Row()];
    }
    return Ok(instance);
  }

  // ---------------------------------------------------------------------
  // AuthTokenSerializer
  // ---------------------------------------------------------------------

  /** A value of the `attrs` dictionary: submitted text, or the user that
      `validate` attaches. */
  datatype AttrValue = Text(text: string) | Account(user: User)

  /** `authenticate(username=..., password=...)`: the user those credentials
      belong to, if any. */
  type Authenticator = (Option<AttrValue>, Option<AttrValue>) -> Option<User>

  /** The field checks of `AuthTokenSerializer`: the email is trimmed and must
      not be blank; the password is taken verbatim (no trimming), so only an
      empty password is blank. Both are required. */
  function TokenFields(data: map<string, string>): Result<map<string, string>>
  {
    var emailFails := "email" !in data || Strip(data["email"]) == [];
    var passwordFails := "password" !in data || data["password"] == [];
    var failing := (if emailFails then {"email"} else {}) + (if passwordFails then {"password"} else {});
    if failing != {} then Err(Invalid(failing))
    else Ok(map["email" := Strip(data["email"]), "password" := data["password"]])
  }

  /** An empty password is refused; any other password, white space
      included, passes through unchanged alongside the trimmed email. */
  lemma TokenFieldsPassword(data: map<string, string>)
    ensures "password" in data && data["password"] == [] ==>
              TokenFields(data).Err? && "password" in TokenFields(data).error.fields
    ensures "email" in data && Strip(data["email"]) != [] && "password" in data && data["password"] != [] ==>
              TokenFields(data) == Ok(map["email" := Strip(data["email"]), "password" := data["password"]])
    ensures TokenFields(data).Ok? ==> "email" in data && "password" in data
                                      && IsStripped(TokenFields(data).value["email"])
  {
    if TokenFields(data).Ok? {
      StripProperties(data["email"], StrSpace);
    }
  }

  /** `validate(attrs)`: authenticate with the email and password in `attrs`;
      on failure raise a validation error and leave `attrs` alone, otherwise
      store the user under "user" and return the same dictionary. */
  method ValidateCredentials(attrs: Dict<AttrValue>, authenticate: Authenticator)
    returns (r: Result<Dict<AttrValue>>)
    modifies attrs
    ensures var user := authenticate(old(attrs.Get("email")), old(attrs.Get("password")));
      && (user.None? ==> r == Err(AuthenticationFailed) && attrs.entries == old(attrs.entries))
      && (user.Some? ==> r == Ok(attrs) && attrs.entries == old(attrs.entries)["user" := Account(user.value)])
  {
    var email := attrs.Get("email");
    var password := attrs.Get("password");
    var user := authenticate(email, password);
    if user.None? {
      return Err(AuthenticationFailed);
    }
    attrs.Put("user", Account(user.value));
    return Ok(attrs);
  }

  /** A token request: the field checks, then `validate`. The request fails
      with the refused fields, or when the credentials do not authenticate;
      otherwise it yields the user `authenticate` returned for the trimmed
      email and the password. */
  method ObtainTokenUser(data: map<string, string>, authenticate: Authenticator)
    returns (r: Result<User>)
    ensures TokenFields(data).Err? ==> r == Err(TokenFields(data).error)
    ensures TokenFields(data).Ok? ==>
      var user := authenticate(Some(Text(Strip(data["email"]))), Some(Text(data["password"])));
      && (user.None? ==> r == Err(AuthenticationFailed))
      && (user.Some? ==> r == Ok(user.value))
  {
    var fields := TokenFields(data);
    if fields.Err? {
      return Err(fields.error);
    }
    var attrs := new Dict(map k | k in fields.value :: Text(fields.value[k]));
    var validated := ValidateCredentials(attrs, authenticate);
    if validated.Err? {
      return Err(validated.error);
    }
    var user := validated.value.entries["user"];
    return Ok(user.user);
  }
}
