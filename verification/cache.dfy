/** The per-card image cache of the card routes: rendered faces are kept as files
    `card_{id}_{face}.png` in one directory. `get_or_create_card_image` serves a stored
    file or renders and stores the face; `delete_card` removes the two faces of a card.
    The directory is modelled as a map from file name to stored image. */
module ImageCache {
  import opened Outcomes
  import opened Text
  import opened Raster
  import opened Difficulty

  /** `card_{id}_{face}.png`. */
  function CacheName(id: int, face: int): string {
    "card_" + Decimal(id) + ("_" + Decimal(face) + ".png")
  }

  /** Distinct (id, face) pairs never share a file. */
  lemma CacheNameInjective(id: int, face: int, id': int, face': int)
    ensures CacheName(id, face) == CacheName(id', face') ==> id == id' && face == face'
  {
    if CacheName(id, face) == CacheName(id', face') {
      NumberedNameInjective("card_", id, "_" + Decimal(face) + ".png", id', "_" + Decimal(face') + ".png");
      NumberedNameInjective("_", face, ".png", face', ".png");
    }
  }

  type Cache = map<string, Grid>

  /** What `get_or_create_card_image` hands back: the image served and the cache after
      the call. */
  datatype Served = Served(image: Grid, cache: Cache)

  /** `get_or_create_card_image(card, card_type, face, card_id)`. `recto` and `verso`
      are what the two face renderers return for the card; only the one the face
      selects is used. */
  function GetOrCreate(cache: Cache, id: int, face: int, recto: Result<Grid, RenderError>, verso: Result<Grid, RenderError>)
    : (r: Result<Served, RenderError>)
    ensures CacheName(id, face) in cache ==> r == Ok(Served(cache[CacheName(id, face)], cache))
    ensures CacheName(id, face) !in cache ==>
      var rendered := if face == 0 then recto else verso;
      && (r.Ok? <==> rendered.Ok?)
      && (r.Err? ==> r.error == rendered.error)
      && (r.Ok? ==> r.value.image == rendered.value)
    ensures r.Ok? ==> CacheName(id, face) in r.value.cache && r.value.cache[CacheName(id, face)] == r.value.image
    ensures r.Ok? ==> forall n :: n != CacheName(id, face) ==>
      (n in r.value.cache <==> n in cache) && (n in cache ==> r.value.cache[n] == cache[n])
  {
    var name := CacheName(id, face);
    if name in cache then Ok(Served(cache[name], cache))
    else
      var image :- if face == 0 then recto else verso;
      Ok(Served(image, cache[name := image]))
  }

  /** A second request for the same face is served from the cache: same image, and
      the cache is left as the first request left it. */
  lemma SecondRequestHits(cache: Cache, id: int, face: int, recto: Result<Grid, RenderError>, verso: Result<Grid, RenderError>,
                          recto': Result<Grid, RenderError>, verso': Result<Grid, RenderError>)
    requires GetOrCreate(cache, id, face, recto, verso).Ok?
    ensures var first := GetOrCreate(cache, id, face, recto, verso).value;
      GetOrCreate(first.cache, id, face, recto', verso') == Ok(first)
  {
  }

  /** `delete_card(id)`: the files of faces 0 and 1 are removed when present. */
  function DeleteCard(cache: Cache, id: int): (r: Cache)
    ensures forall n :: n in r <==> n in cache && n != CacheName(id, 0) && n != CacheName(id, 1)
    ensures forall n :: n in r ==> r[n] == cache[n]
  {
    cache - {CacheName(id, 0), CacheName(id, 1)}
  }

  /** Deletion evicts exactly the two faces of that card: every other (card, face)
      file stays, including the card's own files for faces other than 0 and 1. */
  lemma DeleteEvictsOnlyTwoFaces(cache: Cache, id: int, id': int, face: int)
    ensures CacheName(id', face) in DeleteCard(cache, id) <==>
      CacheName(id', face) in cache && !(id' == id && (face == 0 || face == 1))
  {
    CacheNameInjective(id', face, id, 0);
    CacheNameInjective(id', face, id, 1);
  }

  /** After a deletion the next request for either face renders it again. */
  lemma DeletedFacesAreRerendered(cache: Cache, id: int, face: int, recto: Result<Grid, RenderError>, verso: Result<Grid, RenderError>)
    requires face == 0 || face == 1
    ensures GetOrCreate(DeleteCard(cache, id), id, face, recto, verso).Ok? ==>
      GetOrCreate(DeleteCard(cache, id), id, face, recto, verso).value.image ==
        (if face == 0 then recto.value else verso.value)
  {
  }
}
