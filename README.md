# recipe-app-api core, in Dafny

A model of the hand-written logic of a Django recipe API and proofs about it:

- **List queries** (`app/recipe/views.py`). The tag and ingredient listings keep the caller's rows. With a nonzero `assigned_only`, they keep only rows that some recipe links to. The result is ordered by name, descending, without repetitions. The recipe listing parses the comma-separated `tags` and `ingredients` id lists (`_params_to_ints`). It keeps the caller's recipes that link to a listed tag and to a listed ingredient, ordered by id, descending, without repetitions. The database is a value `Db` holding sequences of rows. A filter across a many-to-many relation is an explicit join that yields one copy of a row per matching link. So `distinct()` has real work to do, and the proofs show it does it.
- **User factory** (`app/core/models.py`). `create_user` rejects an empty email, normalises the email, hashes the password and saves the user. `create_superuser` then raises the staff and superuser flags and saves again. The model also covers the user field defaults, the `__str__` methods, and the upload path of a recipe image. The user table is a `UserStore` class whose `rows` map primary keys to saved rows; its email column is unique. A `User` is a class whose fields the methods assign one by one before saving.
- **User serializers** (`app/user/serializers.py`). These cover the field rules of `UserSerializer`: the fields, trimming, the five-character minimum for passwords, and the write-only password. They also cover registration through `create`, `update`, and `AuthTokenSerializer.validate`. The `validated_data` and `attrs` dictionaries that those methods change in place are `Dict` objects.

Python built-ins that the code relies on are modelled on the inputs the code gives them, with the gaps listed under "Left out":
- `int()` on base-10 text, with the white space it skips (narrower than `str.isspace()`), and `str()` on integers;
- `str.split` on one character, `str.join`, `str.strip` and `str.lower`;
- `os.path.splitext` and `os.path.join` (POSIX);
- the canonical text form of a UUID.

Password hashing, the salt, `uuid.uuid4()` and `authenticate` are parameters: a hash function, a string, a 128-bit number and an authenticator function.

Files:
- `common.dfy`: `Option`, `Result`, errors.
- `text.dfy`: string built-ins and the code-point order of names.
- `ordering.dfy`: filter, order and distinct on sequences.
- `int_literal.dfy`: `int()` and `str()`.
- `core_models.dfy`: rows, `User`, `UserStore`, image path, email normalisation.
- `recipe_views.dfy`: the list queries.
- `user_serializers.dfy`: the user serializers.

The `assigned_only` filter `recipe__isnull=False` does not restrict the owner of the recipe. So a caller's tag or ingredient that any user's recipe links to is listed (`RecipeViews.IsAssigned` ranges over all recipes).

## Model

| member | source | states |
|---|---|---|
| RecipeViews.ParseAll | app/recipe/views.py:56 | the list comprehension succeeds iff every token parses; it then has one value per token, in token order; otherwise the error names the first token that does not parse |
| RecipeViews.ParamsToIntsRoundTrip | app/recipe/views.py:51-56 | `_params_to_ints` of the comma-joined decimal forms of any nonempty list of integers gives back exactly that list |
| RecipeViews.ParseAllShows | app/recipe/views.py:56 | converting the decimal literal of each integer yields the integers, in order |
| RecipeViews.ParamsToIntsBlankPiece | app/recipe/views.py:56 | an empty or all-white-space piece between two commas (`"1,,2"`, `"1, ,2"`) makes `_params_to_ints` fail |
| RecipeViews.AssignedOnlyValues | app/recipe/views.py:33-35 | `assigned_only` absent means false; the literal of any integer n means n != 0; a blank value fails |
| RecipeViews.LinkCount | app/recipe/views.py:38 | the number of recipes linking to an id is positive iff some recipe links to it |
| RecipeViews.AssignedJoin | app/recipe/views.py:37-38 | the join with the recipe link table holds exactly the rows that some recipe links to |
| RecipeViews.NameDescendingIsTotalPreorder | app/recipe/views.py:42 | `order_by('-name')` compares any two rows and is transitive |
| RecipeViews.ListAttrsMembers | app/recipe/views.py:29-42 | the tag/ingredient listing fails iff `assigned_only` is not an integer literal; otherwise a row is listed iff it is in the table, owned by the caller, and (with `assigned_only` nonzero) linked by some recipe |
| RecipeViews.ListAttrsOrdered | app/recipe/views.py:40-42 | the listing is sorted by name descending and lists no row twice, however many recipes link to it |
| RecipeViews.ListAttrsUniqueIds | app/recipe/views.py:40-42 | with ids unique in the table, no id appears twice in the listing |
| RecipeViews.ListAttrsAllOwned | app/recipe/views.py:36-42 | without `assigned_only`, the listing is a rearrangement of exactly the caller's rows |
| RecipeViews.MatchingLinks | app/recipe/views.py:65 | a recipe has matching links iff one of its linked ids is listed |
| RecipeViews.JoinOn | app/recipe/views.py:63-68 | filtering on `<relation>__id__in` keeps exactly the recipes linking to a listed id |
| RecipeViews.ListRecipesMembers | app/recipe/views.py:58-72 | the recipe listing fails iff a nonempty `tags` or `ingredients` value fails to parse; otherwise a recipe is listed iff it is the caller's and links to a listed tag (when given) and a listed ingredient (when given) |
| RecipeViews.ListRecipesOrdered | app/recipe/views.py:70-72 | the recipe listing has no repetition and is sorted by id descending |
| RecipeViews.ListRecipesStrictlyDescending | app/recipe/views.py:70-72 | with ids unique in the table, the listed ids strictly decrease |
| Text.Split | app/recipe/views.py:56 | `split(',')` yields at least one piece, no piece holds a comma, and joining the pieces gives the input back |
| Text.SplitJoin | app/recipe/views.py:56 | splitting the comma-join of comma-free pieces gives the pieces back |
| Ordering.SortBySorted | app/recipe/views.py:42 | `order_by` yields a sequence sorted by the key, for any total preorder |
| Ordering.SortByNoDuplicates | app/recipe/views.py:42 | ordering a repetition-free sequence keeps it repetition-free |
| Ordering.DedupSorted | app/recipe/views.py:42 | `distinct()` after `order_by` keeps the order |
| Ordering.DedupIdentity | app/recipe/views.py:42 | `distinct()` on a repetition-free sequence changes nothing |
| Ordering.Dedup | app/recipe/views.py:42 | `distinct()` keeps exactly the elements of its input and lists none twice |
| IntLiteral.ParseShow | app/recipe/views.py:56 | `int(str(n)) == n` for every integer n |
| IntLiteral.ParseShowPadded | app/recipe/views.py:56 | white space that `int()` skips (every `str.isspace()` character except FS, GS, RS and US) around a literal does not change what `int()` returns |
| IntLiteral.ParseSeparatorControl | app/recipe/views.py:56 | an FS, GS, RS or US character at either end makes `int()` fail, although `str.isspace()` holds for it |
| IntLiteral.ParseLeadingZeros | app/recipe/views.py:56 | leading zeros are accepted and ignored |
| IntLiteral.ParseBlank | app/recipe/views.py:56 | an empty string, or one made only of `str.isspace()` characters, is not an integer literal |
| IntLiteral.ShowNat | app/recipe/views.py:56 | the decimal form of a natural number is nonempty digits with no leading zero, and denotes that number |
| CoreModels.DisplayStrings | app/core/models.py:80-103 | `str()` of a recipe is its title, and of a tag or an ingredient its name |
| CoreModels.UuidString | app/core/models.py:20 | the text of a UUID is 36 characters, with dashes at 8, 13, 18 and 23, and holds no '/' and no '.' |
| CoreModels.SplitExt | app/core/models.py:19 | `splitext` splits the name into stem + extension, and the extension is empty or one dot followed by neither dots nor slashes |
| CoreModels.ImagePathShape | app/core/models.py:17-22 | the upload path is `uploads/recipe/` + the UUID text + the extension of the uploaded name |
| CoreModels.UploadDirectory | app/core/models.py:22 | `os.path.join('uploads', 'recipe')` followed by a separator is `uploads/recipe/` |
| CoreModels.ImagePathKeepsExtension | app/core/models.py:17-22 | `<stem>.<ext>` is stored as `uploads/recipe/<uuid>.<ext>` when the last component of the stem has a character other than a dot |
| CoreModels.ImagePathWithoutExtension | app/core/models.py:17-22 | a name without a dot gives `uploads/recipe/<uuid>` with no extension |
| CoreModels.NormalizeEmailParts | app/core/models.py:34 | a stripped address keeps its local part and has its domain (after the last '@') lower-cased |
| CoreModels.NormalizeEmailWithoutAt | app/core/models.py:34 | an address without '@' is stored as given |
| CoreModels.NormalizeEmailIdempotent | app/core/models.py:34 | normalising a normalised address changes nothing |
| Text.LowerProperties | app/core/models.py:34 | `lower()` is idempotent, leaves no capital letter, and neither adds nor removes '@' or white space |
| CoreModels.CheckPasswordAfterSet | app/core/models.py:35 | after `set_password(p)` the password p checks, and a password with a different digest does not; after `set_password(None)` nothing checks |
| CoreModels.User.constructor | app/core/models.py:52-55 | a new user takes the given email and extra fields; otherwise it is active, not staff, not superuser, with an empty name; its password is the empty text, which no password checks against; it has no primary key |
| CoreModels.User.SetPassword | app/core/models.py:35 | only the password field changes, to the salted digest of the raw password |
| CoreModels.NewUser | app/core/models.py:34-35 | a new unsaved instance holds the given email, the extra fields or their defaults, and the hashed password |
| CoreModels.UserStore.Save | app/core/models.py:52 | saving fails and writes nothing iff another row holds the email (the unique column); otherwise it writes the instance's row under its key, assigning the next key to a new instance, and keeps the table valid |
| CoreModels.UserStore.CreateUser | app/core/models.py:30-38 | an empty email fails with nothing stored; otherwise the user is stored under a new key, with the normalised email, the hashed password that checks, the extra fields passed through and the defaults for the rest, unless the email is taken |
| CoreModels.UserStore.Promote | app/core/models.py:43-45 | raising the flags and saving again overwrites the user's own row and changes no other field |
| CoreModels.UserStore.CreateSuperuser | app/core/models.py:40-47 | the stored user is active, staff and superuser, with the normalised email and a password that checks; an empty or taken email stores nothing |
| UserSerializers.CleanField | app/user/serializers.py:38-42 | a field value passes iff its trimmed text is nonempty and within the field's bounds (password at least 5); it then becomes the trimmed text, else the field is reported |
| UserSerializers.ValidateUserData | app/user/serializers.py:38-42 | validation fails iff some field is refused, and names all refused fields; otherwise the data holds the trimmed, in-bounds value of each submitted field, all three in a full submission |
| UserSerializers.CleanedFieldsShape | app/user/serializers.py:38-42 | with no refused field, the cleaned data has exactly the submitted serializer fields, each trimmed and in bounds |
| UserSerializers.ValidateUserDataRejects | app/user/serializers.py:38-42 | a refused field makes validation fail and is named in the error |
| UserSerializers.ShortPasswordRejected | app/user/serializers.py:42 | a password shorter than five characters once trimmed is rejected |
| UserSerializers.RepresentationHidesPassword | app/user/serializers.py:42 | the output of a user has exactly the email and the name; the write-only password never appears |
| UserSerializers.Create | app/user/serializers.py:46-54 | `create` stores exactly the row `create_user(**validated_data)` stores: the validated email normalised, name, and hashed password; without an email it is a missing-argument error |
| UserSerializers.Register | app/user/serializers.py:46-54 | a refused submission (e.g. a short password) stores nothing and reports the refused fields; an accepted one adds the created row and answers with its representation, without the password |
| UserSerializers.Dict.Pop | app/user/serializers.py:63 | `pop(key, None)` returns the value under key if any and removes only that key |
| UserSerializers.AssignFields | app/user/serializers.py:65 | each given field is set on the instance; the others keep their value |
| UserSerializers.SavePassword | app/user/serializers.py:67-69 | a new password is hashed in and the user's own row overwritten |
| UserSerializers.Update | app/user/serializers.py:61-70 | the password is popped from the validated data; the other fields are set and saved; a nonempty password is hashed in, otherwise the stored password is kept; a taken email fails and writes nothing |
| UserSerializers.TokenFieldsPassword | app/user/serializers.py:83-87 | the token email is trimmed and the password is taken verbatim, so only an empty password is refused |
| UserSerializers.Dict.Put | app/user/serializers.py:107 | item assignment changes only that key |
| UserSerializers.ValidateCredentials | app/user/serializers.py:90-108 | when `authenticate` returns no user, validation fails and `attrs` is unchanged; otherwise `attrs` gains exactly `user` and is returned |
| UserSerializers.ObtainTokenUser | app/user/serializers.py:83-108 | a token request fails with the refused fields or with failed authentication, and otherwise yields the user returned for the trimmed email and the verbatim password |

## Left out

- The Django ORM, SQL and migrations: tables are sequences of rows (and a map for users). Cascade deletes are not modelled.
- HTTP routing, status codes, authentication classes, JWT issue and blacklist, logout, the image-upload action, the schema decorators and `wait_for_db`: they are framework plumbing or I/O.
- Password hashing, the salt, `uuid.uuid4()` and `authenticate` are parameters, not reimplementations. The hash function is uninterpreted, so a wrong password is shown to fail only when its digest differs.
- `int()`: the model accepts ASCII digits only. Python also accepts other Unicode decimal digits and limits the number of digits; neither affects ids a client sends.
- `str.lower()`: only ASCII capitals are lowered. Python also lowers other Unicode letters.
- The email format check of `EmailField`, and the framework's null-character and surrogate validators: they are not in the source.
- The uniqueness check of the serializer's email field: a taken email is reported when the row is saved (`UserStore.Save`) rather than by a validator before it.
- Maximum field lengths are not in the serializer source. The model takes them from the model fields: 255 for the email and the name, and 128 for the stored password.
- Database collation: names are compared by code point. Rows with equal names are left in the order the sort produces, which SQL does not fix.
- The request object: the list queries take only the caller's user id and the query parameters. The parameters are a map holding the last value given for each name.
- The `Recipe` fields other than the links and the title are carried but nothing is proved about them. The price is in hundredths.
