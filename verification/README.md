# Story-builder card service: a Dafny model of its core

This project models the core of a card-game back end written in Python. The service
renders the two faces of each story card. It lays card faces out on printable sheets
and packs a range of cards into a tar archive of sheets. It caches rendered faces per
card. Its registration, refresh and logout routes are guarded by JWT-based
authentication with scopes and a denylist of revoked tokens; the card routes are not.
The model covers:

- **Pixels and faces** (`Raster`, `CardName`, `Difficulty`, `CardFace`):
  - images are grids of RGBA pixels;
  - `change_color` is an exact-match recolour that keeps alpha;
  - an unmasked `paste` is a clipped rectangle copy;
  - the difficulty strip is tiled from one glyph;
  - the card name is normalised (escape replacement, then `strip`);
  - `rgb_to_hex` is modelled;
  - the layout of recto and verso faces is given as integer offsets over abstract asset
    sizes, for both versions of the renderers. The current version is
    `app/routers/storybuilders/utils.py`; the older one is `routers/storybuilders/utils.py`.
- **Print sheets and print runs** (`Anchors`, `PrintSheet`, `PrintRun`):
  - the two 16-slot anchor tables;
  - the slot-assignment loop that pastes each fetched card's faces onto two white
    1691 x 2178 sheets, and its `KeyError` past the sixteenth card;
  - the sheet file names;
  - the id windows of `generate_print`;
  - the ordered tar members and the archive names.
- **The image cache** (`ImageCache`): a map from file name to image. It is filled by
  `get_or_create_card_image` and emptied per card by `delete_card`.
- **Attribute maps** (`Records`): `CustomBase.to_dict` and `CustomBase.update` over an
  instance dictionary and the set of declared names.
- **Authentication** (`Auth`, `AuthRoutes`):
  - `require_user` and the denylist;
  - `/register`, `/login`, `/refresh` and `/logout`, as transitions of a state made of
    the users table and the set of revoked token ids.

Supporting modules: `Outcomes` (`Option`, `Result`) and `Text` (decimal rendering of
integers with its parser, `strip`, ASCII `lower`, and `split`/`join` on one character).

Foreign code becomes parameters:

- the imaging library's colour parser (`ImageColor.getrgb`) and its alpha blend;
- the password hash and password check;
- the rows a database query returns;
- fresh token ids and user ids;
- the timestamp in the archive name.

## Model

| member | source | states |
|---|---|---|
| Text.Decimal | app/routers/storybuilders/utils.py:189-190 | The rendering of an integer in a file name is non-empty, starts with '-' exactly for negatives, and is digits otherwise |
| Text.DecimalRoundTrip | app/routers/storybuilders/utils.py:189-190 | Parsing the decimal rendering of n gives back n |
| Text.DecimalInjective | app/routers/storybuilders/utils.py:189-190 | Two integers render the same exactly when they are equal |
| Text.NumberedNameInjective | app/routers/storybuilders/cards.py:92 | A name made of a fixed prefix, a number and a tail that cannot continue a number determines the number and the tail |
| Text.Strip | app/routers/storybuilders/utils.py:105 | `strip()` returns the input with only whitespace removed from its two ends, and has no whitespace at either end |
| Text.StripIsTheMaximalTrim | app/routers/storybuilders/utils.py:105 | Any trimming of the input that leaves no outer whitespace is exactly the stripped string |
| Text.Lower | routers/auth.py:44 | `lower()` keeps the length and lowers each character; no upper-case ASCII letter remains |
| Text.LowerIdempotent | routers/auth.py:61 | Lowering an already lowered email changes nothing |
| Text.Split | routers/auth.py:107 | `split(",")` returns at least one piece, and no piece contains the separator |
| Text.JoinSplit | routers/auth.py:107 | Joining the pieces of a split with the same separator gives back the original string |
| Text.SplitJoin | routers/auth.py:107 | Splitting a join of one or more separator-free pieces gives back the pieces |
| Raster.Canvas | app/routers/storybuilders/utils.py:24 | `Image.new` yields a w x h image in which every pixel is the fill colour |
| Raster.Paste | app/routers/storybuilders/utils.py:28 | An unmasked paste keeps the destination's size, copies the source into the covered part clipped to the destination, and leaves every other pixel unchanged |
| Raster.PasteMasked | app/routers/storybuilders/utils.py:44-46 | A masked paste keeps the destination's size, blends the covered pixels, and leaves every other pixel unchanged |
| Raster.ChangeColor | app/routers/storybuilders/utils.py:12-20 | Recolouring keeps the dimensions and every alpha value. A pixel passing the (R, B, G) test against (r, g, b) gets the target RGB; every other pixel is unchanged. The older copy (`routers/storybuilders/utils.py`, same lines) is identical |
| Raster.GreyMarkersMatchExactly | app/routers/storybuilders/utils.py:17 | For markers with three equal channels (the only ones passed), the swapped test selects exactly the pixels of the marker colour |
| Raster.SwappedChannelsSelectAnotherColour | app/routers/storybuilders/utils.py:17 | For a marker with distinct channels, the test selects a pixel of another colour and misses the marker colour itself |
| Raster.ChangeColorIdempotent | app/routers/storybuilders/utils.py:17-18 | Recolouring twice with the same marker and target gives the same image as recolouring once |
| Raster.RgbToHex | app/routers/storybuilders/utils.py:8-9 | `rgb_to_hex` yields 7 characters: '#' and then six lower-case hex digits |
| Raster.HexRoundTrip | app/routers/storybuilders/utils.py:8-9 | Decoding the hex string recovers the original three channels |
| Raster.HexDecodeThenEncode | app/routers/storybuilders/utils.py:8-9 | Every string the decoder accepts is the serialisation of the colour it decodes to |
| CardName.ReplaceEscapes | app/routers/storybuilders/utils.py:105 | `replace("\\n", "\n")` leaves no backslash-n pair. The result is shorter than the input by the number of non-overlapping left-to-right replacements |
| CardName.EscapeAfterReplace | app/routers/storybuilders/utils.py:105 | For a name without real line breaks, writing each newline back as the escape restores the name |
| CardName.ReplaceAfterEscape | app/routers/storybuilders/utils.py:105 | A text without escape pairs survives escaping followed by replacement |
| CardName.Normalise | app/routers/storybuilders/utils.py:105 | The drawn name has no escape pair and no outer whitespace. It is the unescaped name with whitespace removed only from its ends, so its length is at most the input's minus the replacements. The older recto (`routers/storybuilders/utils.py:120`) does the same |
| Difficulty.GetRgb | app/routers/storybuilders/utils.py:36 | Reading the type colour succeeds exactly for a present, non-empty colour that the parser accepts; otherwise the error is an invalid colour |
| Difficulty.StripPlan | app/routers/storybuilders/utils.py:38-49 | The geometry exists exactly when d >= 1 and both resize targets are at least 1. The canvas is (glyph_w d) x glyph_h, tile i sits at x = glyph_w i, and the final size is ((glyph_w + 10) d div 4, glyph_h div 4). The older copy (`routers/storybuilders/utils.py:56-67`) is identical |
| Difficulty.TilesPartitionStrip | app/routers/storybuilders/utils.py:43-46 | Every column of the strip lies in exactly one tile, the one numbered x div glyph_w; the tiles are disjoint and cover the width |
| Difficulty.FinalSizeByDifficulty | app/routers/storybuilders/utils.py:47-49 | The final height does not depend on the difficulty, and the final width does not decrease as it grows |
| Difficulty.TileStep | app/routers/storybuilders/utils.py:41-44 | Pasting tile i onto a strip whose first i tiles hold the blended glyph and whose rest is white extends the tiled part by exactly one tile and leaves the rest white |
| Difficulty.TileOfColumn | app/routers/storybuilders/utils.py:41-44 | Column x of d tiles of width w lies in tile x div w and in no other |
| Difficulty.TileGlyphs | app/routers/storybuilders/utils.py:38-46 | The pasting loop yields a (glyph_w d) x glyph_h strip in which each pixel is the glyph pixel of its column modulo glyph_w, blended over white |
| Difficulty.PreResizeStrip | app/routers/storybuilders/utils.py:30-44 | `generate_difficulty` before the resize fails exactly when the colour or the planned sizes fail, with the same error; otherwise it yields an image of the planned canvas size whose pixels are white blended with the recoloured glyph's pixel of their column modulo glyph_w |
| Difficulty.DifficultyStrip | app/routers/storybuilders/utils.py:32-50 | The colour is read first, and a bad colour is an invalid-colour error. Then the strip exists exactly when its geometry does, with the glyph recoloured from white to the type colour |
| CardFace.TypeCard | app/routers/storybuilders/utils.py:23-29 | The type card is a 400 x 400 image: the contour at (0, 0) on white. Marker pixels are recoloured only when the type colour is truthy, and it fails only when a truthy colour does not parse. The older copy (`routers/storybuilders/utils.py:23-29`) is identical |
| CardFace.Recto | app/routers/storybuilders/utils.py:69-116 | The recto renders exactly when the type card and the difficulty strip do, and its base image is the type card |
| CardFace.Verso | app/routers/storybuilders/utils.py:119-146 | The verso renders exactly when the type card and (current version only) the strip do, and its base image is the type card |
| CardFace.RectoLayout | app/routers/storybuilders/utils.py:81-115 | The title is at height 20 in size 34. The separator is widened by 45, placed at (200 - (w+45) div 2, 55 + h) and centred within a pixel. The normalised name is at (50, 85). The strip is at x = 100, its bottom 20 px above the card's edge |
| CardFace.VersoLayout | app/routers/storybuilders/utils.py:122-145 | The logo is at (15, (400 - logo_h) div 2) and centred vertically within a pixel. The strip is at (100, 300 - strip_h), its bottom 100 px above the edge |
| CardFace.VersoStripIs80Higher | app/routers/storybuilders/utils.py:110-145 | Whenever the recto renders, so does the verso, and both carry the same strip at the same x, with the verso's exactly 80 px higher |
| CardFace.LegacyRectoLayout | routers/storybuilders/utils.py:103-130 | In the older recto the separator is 5 px higher (y = 50 + h) at the same x, the name is at (50, 80) in size 24, and the strip is placed as in the current version |
| CardFace.LegacyVersoHasNoStrip | routers/storybuilders/utils.py:134-154 | The older verso draws only the logo and the title, never a difficulty strip, and renders exactly when the type card does |
| CardFace.ColourlessTypeFaces | app/routers/storybuilders/utils.py:26-36 | A type without a colour gets the plain contour, but both current faces fail with an invalid colour, while the older verso still renders |
| Anchors.AnchorsClosedForm | app/routers/storybuilders/utils.py:149-185 | Both tables are defined exactly on slots 1..16. Slot k's recto corner is (422 col - 400, 50 + 544 row) and its verso corner is (1691 - 422 col, the same y) |
| Anchors.VersoMirrorsRecto | app/routers/storybuilders/utils.py:149-185 | Each verso slot is its recto slot mirrored across the sheet: verso_x = 1691 - (recto_x + 400), with the same y |
| Anchors.TablesFitTheSheet | app/routers/storybuilders/utils.py:149-193 | In both tables every 400 x 400 slot lies inside the 1691 x 2178 sheet and no two slots overlap |
| PrintSheet.ComposeSheet | app/routers/storybuilders/utils.py:192-205 | Pasting face k-1 at slot k in order yields a white sheet with each face in its own slot and every unused pixel white |
| PrintSheet.FirstFailure | app/routers/storybuilders/utils.py:201-205 | The loop fails exactly when some card fails, and then raises the error of the first failing card |
| PrintSheet.FailureFree | app/routers/storybuilders/utils.py:201-205 | A batch succeeds exactly when it has at most 16 cards and every face renders. With at most 16 cards only a renderer can fail; past 16, the 17th lookup raises `KeyError` unless a face fails first |
| PrintSheet.SheetFileFor | app/routers/storybuilders/utils.py:208-217 | Each returned path is the prints directory followed by the returned name |
| PrintSheet.SheetNameInjective | app/routers/storybuilders/utils.py:210-215 | A sheet name determines the id range and the side it was made for |
| PrintSheet.GenerateCardPrints | app/routers/storybuilders/utils.py:188-217 | The call fails exactly when the loop raises, and with the first error. On success there are at most 16 cards, card i's recto and verso sit in slot i of their sheets, and unused slots stay white |
| PrintRun.WindowsClosedForm | app/routers/storybuilders/cards.py:127-134 | Window k is [start + 11k, min(start + 11k + 11, end)]. There are none when start > end, and (end - start) div 11 + 1 otherwise |
| PrintRun.WindowsShape | app/routers/storybuilders/cards.py:129-134 | Every window satisfies start <= lo <= hi <= end and spans at most 12 ids. Consecutive windows share their boundary id (hi_k = lo_(k+1)), and lo strictly increases |
| PrintRun.WindowsCover | app/routers/storybuilders/cards.py:127-134 | Every id in [start, end] lies in some window |
| PrintRun.FetchedAtMostWindow | app/routers/storybuilders/utils.py:195-200 | A range query with distinct ids inside [lo, hi] returns at most hi - lo + 1 rows |
| PrintRun.WindowNeverOverflows | app/routers/storybuilders/cards.py:129-133 | A window's fetch has at most 12 cards, so the 16-entry anchor lookup never fails, and a window fails only when a face fails to render |
| PrintRun.TarEntries | app/routers/storybuilders/cards.py:140-148 | The archive gets exactly two entries per window |
| PrintRun.TarEntriesOrder | app/routers/storybuilders/cards.py:140-148 | Entry 2k is window k's recto sheet name and entry 2k + 1 its verso sheet name |
| PrintRun.TarEntriesDistinct | app/routers/storybuilders/cards.py:140-148 | With strictly increasing window starts, the entry names are pairwise distinct |
| PrintRun.Members | app/routers/storybuilders/cards.py:140-148 | Each sheet pair contributes two tar members |
| PrintRun.MembersMatchEntries | app/routers/storybuilders/cards.py:140-148 | Sheet pairs produced window by window give members named by the windows' entry names, each stored under the prints directory |
| PrintRun.PrintWindow | app/routers/storybuilders/cards.py:131-133 | One window yields its sheet pair, or the first error of its cards |
| PrintRun.PrintAll | app/routers/storybuilders/cards.py:129-134 | Over windows whose rows fit on one sheet: the loop succeeds exactly when every window's faces render, and otherwise returns the first failing window's render error with all earlier windows rendering. On success it holds one sheet pair per window, in window order, each carrying its window's bounds and composed from that window's rows |
| PrintRun.PrintWindows | app/routers/storybuilders/cards.py:127-134 | The same outcome for the windows of [start, end] and the rows the range query returns for each of them |
| PrintRun.GeneratePrintMembersDistinct | app/routers/storybuilders/cards.py:127-148 | The sheet pairs of the windows of [start, end], each carrying its window's bounds, give tar members with pairwise distinct names; `GeneratePrint`'s members are exactly `Members` of its sheets, so its archive never repeats a name |
| PrintRun.GeneratePrint | app/routers/storybuilders/cards.py:125-158 | The run succeeds exactly when every window succeeds, and otherwise returns the first failing window's render error. On success it holds each window's composed sheets, the ordered members with their paths, `generated_prints_{start}_{end}_{timestamp}.tar.gz`, and a download name without the timestamp |
| ImageCache.CacheNameInjective | app/routers/storybuilders/cards.py:92 | Distinct (id, face) pairs never share a cache file |
| ImageCache.GetOrCreate | app/routers/storybuilders/cards.py:90-110 | A hit returns the stored image and leaves the cache unchanged. A miss renders the recto iff face = 0 (the verso otherwise), then stores and returns the image; every other entry is kept |
| ImageCache.SecondRequestHits | app/routers/storybuilders/cards.py:90-98 | A second request for the same face returns the same image and leaves the cache as the first left it |
| ImageCache.DeleteCard | app/routers/storybuilders/cards.py:78-86 | Deletion removes exactly the files of faces 0 and 1 of the card and keeps every other entry with its image |
| ImageCache.DeleteEvictsOnlyTwoFaces | app/routers/storybuilders/cards.py:78-86 | Any (card, face) entry survives deletion unless it is face 0 or 1 of the deleted card; faces other than 0 and 1 stay |
| ImageCache.DeletedFacesAreRerendered | app/routers/storybuilders/cards.py:78-102 | After a deletion, the next request for face 0 or 1 renders the face again |
| Records.ToDict | app/models.py:20-32 | `to_dict` returns only non-internal instance attributes, with their values, and only those listed in `fields` when the list is non-empty |
| Records.ToDictAll | app/models.py:21-26 | With no fields, exactly the instance attributes not starting with '_' are returned |
| Records.ToDictRestricts | app/models.py:27-32 | With fields, the result is `to_dict()` restricted to the listed keys: a sub-map of it |
| Records.Update | app/models.py:34-37 | `update` sets every key of the data that the object has as an attribute. Every other attribute keeps its value, and non-attribute keys add nothing |
| Records.UpdateKeepsAttributes | app/models.py:34-37 | An update never changes which names `hasattr` sees |
| Records.UpdateIdempotent | app/models.py:34-37 | Applying the same update twice equals applying it once |
| Auth.JwtRequired | app/oauth2.py:25-41 | The library accepts a token exactly when it is present, decodes, is not revoked and has the required type. A missing token gives `MissingTokenError`, and a revoked one `RevokedTokenError` |
| Auth.FindById | app/oauth2.py:83 | The lookup finds a user exactly when some stored user has the subject as id; a missing subject matches nobody |
| Auth.FindByEmail | routers/auth.py:42-46 | The lookup finds a user exactly when some stored user has that email, and returns such a user |
| Auth.AuthenticateValue | app/oauth2.py:73-76 | The header value is plain `Bearer` exactly when the route requires no scope; otherwise it is `Bearer scope="…"` with the quotes closing the value |
| Auth.AuthenticateValueNamesScopes | app/oauth2.py:73-74 | The quoted part of a scoped header value, split on spaces, gives back the required scopes in order when none of them holds a space |
| Auth.Classify | app/oauth2.py:90-109 | Every exception in `require_user`'s `try` becomes a 401 with one of the four details and no header |
| Auth.Authenticate | app/oauth2.py:78-89 | The `try` block succeeds only with a verified user found by the token's subject |
| Auth.RequireUser | app/oauth2.py:67-117 | `require_user` returns the user's id exactly when the token is valid, the user exists and is verified, and every required scope is granted. Every failure is a 401, and only the permissions error carries `WWW-Authenticate` |
| Auth.RequireUserDetails | app/oauth2.py:90-116 | Missing token, unknown user, unverified user and insufficient scope give their own details, in that check order; any other token problem gives "Token is invalid or has expired" |
| Auth.MissingUserIsNeverUnverified | app/oauth2.py:85-89 | Existence is checked before verification, so a missing user never yields the not-verified error |
| Auth.NoScopesClaim | app/oauth2.py:110-116 | A token without a `scopes` claim passes only routes that require no scope |
| Auth.NothingRevokedInitially | app/oauth2.py:32-41 | The denylist starts empty, so no token is revoked before the first logout |
| AuthRoutes.CreateUser | routers/auth.py:27-67 | Registration checks `require_user` with "admin", then 409 for an existing lower-cased email, then 400 for unequal passwords. The new user is appended with the lower-cased email, the hashed password, role "user", verified, created by the caller's subject, with the given scopes |
| AuthRoutes.CreateUserSecondCheckPasses | routers/auth.py:36-40 | The second `jwt_required()` checks the token `require_user` just accepted, and cannot fail |
| AuthRoutes.CreateUserKeepsRegistered | routers/auth.py:42-61 | Registration keeps every stored email lower-case and all emails distinct |
| AuthRoutes.RegisteredEmailsDifferInLowerCase | routers/auth.py:42-61 | Under that invariant no two users share an email even after lower-casing |
| AuthRoutes.CreateUserKeepsIdsUnique | routers/auth.py:63-66 | Registration with a fresh id keeps user ids unique |
| AuthRoutes.Login | routers/auth.py:71-115 | Login looks up the lower-cased username. A missing user gives 400, an unverified one 401 before the password check, and a wrong password the same 400. Both tokens carry the user's id and the stored scopes split on ',' |
| AuthRoutes.ScopesClaimRoundTrip | routers/auth.py:104-115 | Joining the scopes claim with ',' gives back the stored scopes string |
| AuthRoutes.UnknownEmailAnswersLikeWrongPassword | routers/auth.py:84-101 | An unknown email and a wrong password for a verified account get identical answers (an unverified account is still told apart by its 401) |
| AuthRoutes.LoginThenAccess | routers/auth.py:104-115 | With unique ids, a fresh access token from login passes `require_user` for any scopes among the user's stored scopes while its id is not revoked |
| AuthRoutes.RefreshToken | routers/auth.py:157-191 | `require_user` runs first, then every failure inside the `try` is a 400: "Please provide refresh token" for a missing token, else the exception's class name, including "HTTPException" for an empty subject or a missing user. On success the new access token has the subject and no scopes claim |
| AuthRoutes.RefreshWithOneTokenFails | routers/auth.py:157-191 | When one token serves as both the access and the refresh token, `/refresh` fails: with a 401 if it is not a usable access token, else with 400 "RefreshTokenRequired" |
| AuthRoutes.RefreshedTokenHasNoScopes | routers/auth.py:180-183 | A refreshed access token is refused by every route that requires a scope |
| AuthRoutes.Logout | routers/auth.py:219-229 | Logout succeeds exactly when `require_user` does, and then adds the access token's id to the denylist and changes nothing else |
| AuthRoutes.LoggedOutTokenIsRefused | routers/auth.py:226 | After logout the same access token gets "Token is invalid or has expired" on every route |
| AuthRoutes.RunInvariants | routers/auth.py:27-229 | Over any sequence of requests the denylist only grows, users are only appended, and stored emails stay lower-case and unique |
| AuthRoutes.RevokedStaysRevoked | routers/auth.py:226 | Once revoked, an access token stays refused whatever requests follow |

## Notes on the code

- **Print-run windows.** A sheet has 16 slots, the keys of the two anchor tables.
  `generate_print` requests windows `[i, min(i + 11, end)]` and then moves to `i + 11`
  (`app/routers/storybuilders/cards.py:129-134`). A window therefore spans at most 12
  ids, and neighbouring windows share their boundary id, so those cards are printed
  twice. `PrintRun.WindowsShape` states this.
- **A type without a colour.** `generate_type_card` skips the recolour when the colour
  is falsy. `generate_difficulty` calls `getrgb` on the colour unconditionally
  (`app/routers/storybuilders/utils.py:36`). Both current faces of such a card
  therefore fail (`CardFace.ColourlessTypeFaces`). The older verso, which has no strip,
  renders.
- **Card order on a sheet.** The range query has no `order_by`
  (`app/routers/storybuilders/utils.py:195-200`), so the model takes the fetched rows in
  whatever order they come.
- **Verso anchors.** The verso x is `1691 - (recto_x + 400)`: the whole slot is
  mirrored, not only its corner.

## Left out

- **Fonts and text.** `textbbox`, `textlength` and `draw.text` are not modelled. Texts
  are kept as drawing operations with their anchor, and the centred positions
  (`(card_w - w) / 2`, a float division) are not computed.
- **Image internals.** Not modelled:
  - the masked paste's alpha blend, which is a parameter;
  - `resize` resampling, of which only the target size is kept;
  - RGB/RGBA mode differences;
  - CMYK conversion;
  - PNG/JPEG encoding.
- **Colour parsing.** `ImageColor.getrgb` is a parameter.
- CardFace.Recto: the face is a base image plus an ordered list of drawing operations.
  Rasterising the operations needs fonts, masked blending and resampling, so the
  contract is about the operations and not about final pixels.
- CardFace.Verso: same as for `CardFace.Recto`.
- PrintSheet.GenerateCardPrints: takes the rendered faces as input and requires every
  rendered face to be 400 x 400. The renderers draw on a 400 x 400 canvas; that size
  is not carried through the drawing operations above.
- PrintSheet.GenerateCardPrints: the source pastes as it goes. The model checks for the
  first failure and then composes both sheets. Nothing is saved before the loop ends,
  so the result and the error are the same.
- PrintRun.GeneratePrint: saving the sheets, and writing and streaming the tar archive,
  are I/O. The archive is its member list and its names. The timestamp is a parameter.
- PrintRun.GeneratePrint: `fetch` stands for the range query of each window. It is
  required to return distinct ids inside the window; the ids are a primary key.
- **`create_card_text`.** It is dead code: its only call is commented out.
- **SVG helpers** (`routers/storybuilders/utils.py:32-47`). They wrap a foreign library.
- **`edit_card`.** Its cache invalidation iterates the payload's keys and reads `.id` on
  a string, so it cannot run as written.
- ImageCache.GetOrCreate: the cache holds images, not PNG files. Saving and reloading a
  PNG is taken to be lossless. The cache directory prefix is dropped from the keys.
- **Database helpers and password hashing** (`app/utils.py`, passlib). Hashing and
  checking are parameters.
- Auth.JwtRequired: the token library is not part of this model. Its outcome is a
  parameter (`Presented`). The order of its checks is an assumption: missing token,
  unreadable header, failed decoding, revoked id, wrong type.
- **Token location.** Whether the library reads a token from the `Authorization` header
  or from a cookie is library behaviour. The model takes the access and refresh tokens
  it finds as separate inputs. The library is configured to look in both cookies and
  headers (app/oauth2.py:17), so both checks can find the same header token; that case
  is `refresh == access`, where `/refresh` always fails
  (`AuthRoutes.RefreshWithOneTokenFails`).
- **The `OAuth2PasswordBearer` dependency.** It answers 401 before `require_user` runs
  when there is no bearer header. The model starts where `require_user`'s body starts.
- **Token expiry.** Token lifetimes and cookies are not modelled; an expired token is
  one that fails to decode.
- **Request validation.** Schema validation (e.g. the 8-character password minimum),
  routing and response models are left to the framework.
- **`cards_types.py`, `cards_extension.py`, `main.py`.** These are routing glue.
- Text.Lower: lowers ASCII letters only. Python's `lower()` also maps non-ASCII letters.
- AuthRoutes.Login: a user with a null `scopes` column makes `split` raise. The model
  answers 500 "Internal Server Error", which is the framework's default, not the
  service's.
