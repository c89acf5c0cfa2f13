/**
 * The record schema of the movies catalogue (02_movies_admin/movies/models/models.py,
 * with the `id`, `created` and `modified` fields its mixins contribute): the five entities,
 * the `FilmType` and `Role` choice domains, the rating bound, the 255-character limits,
 * nullability, the `type` column of `film_type`, the `<field>_id` columns of foreign keys,
 * and the schema-qualified table names.
 *
 * `ToRow` lays an entity out as a destination row (column name to value) and `FromRow`
 * reads a row back while enforcing the declared field constraints; they are proved inverse.
 */
module Schema {
  import opened Wrappers
  import opened Timestamp
  import opened Rows

  datatype FilmType = Movie | Short | TvSeries

  datatype Role = Actor | Writer | Director

  /** The stored value of each film type choice. */
  function FilmTypeValue(t: FilmType): string {
    match t
    case Movie => "movie"
    case Short => "short"
    case TvSeries => "tvSeries"
  }

  /** The film type a stored value denotes; only the three declared choices are accepted. */
  function ParseFilmType(s: string): (r: Option<FilmType>)
    ensures r.Some? <==> s == "movie" || s == "short" || s == "tvSeries"
    ensures r.Some? ==> FilmTypeValue(r.value) == s
    ensures forall t :: s == FilmTypeValue(t) ==> r == Some(t)
  {
    if s == "movie" then Some(Movie)
    else if s == "short" then Some(Short)
    else if s == "tvSeries" then Some(TvSeries)
    else None
  }

  /** The stored value of each role choice. */
  function RoleValue(r: Role): string {
    match r
    case Actor => "actor"
    case Writer => "writer"
    case Director => "director"
  }

  /** The role a stored value denotes; only the three declared choices are accepted. */
  function ParseRole(s: string): (r: Option<Role>)
    ensures r.Some? <==> s == "actor" || s == "writer" || s == "director"
    ensures r.Some? ==> RoleValue(r.value) == s
    ensures forall role :: s == RoleValue(role) ==> r == Some(role)
  {
    if s == "actor" then Some(Actor)
    else if s == "writer" then Some(Writer)
    else if s == "director" then Some(Director)
    else None
  }

  const MAX_NAME_LENGTH := 255

  type Uuid = string

  datatype Genre = Genre(id: Uuid, created: Instant, modified: Instant,
                         name: string, description: Option<string>)

  datatype Person = Person(id: Uuid, created: Instant, modified: Instant, fullName: string)

  datatype Filmwork = Filmwork(id: Uuid, created: Instant, modified: Instant,
                               title: string, description: Option<string>,
                               creationDate: Option<Date>, filePath: Option<string>,
                               rating: Option<real>, filmType: FilmType)

  /** Join entity: it carries `created` only, no `modified`. */
  datatype GenreFilmwork = GenreFilmwork(id: Uuid, filmWork: Uuid, genre: Uuid, created: Instant)

  /** Join entity: it carries `created` only, no `modified`. */
  datatype PersonFilmwork = PersonFilmwork(id: Uuid, filmWork: Uuid, person: Uuid, role: Role,
                                           created: Instant)

  datatype Entity =
    | GenreRecord(genre: Genre)
    | PersonRecord(person: Person)
    | FilmworkRecord(filmwork: Filmwork)
    | GenreFilmworkRecord(genreFilmwork: GenreFilmwork)
    | PersonFilmworkRecord(personFilmwork: PersonFilmwork)

  datatype TableKind = GenreTable | PersonTable | FilmworkTable | GenreFilmworkTable | PersonFilmworkTable

  function KindOf(e: Entity): TableKind {
    match e
    case GenreRecord(_) => GenreTable
    case PersonRecord(_) => PersonTable
    case FilmworkRecord(_) => FilmworkTable
    case GenreFilmworkRecord(_) => GenreFilmworkTable
    case PersonFilmworkRecord(_) => PersonFilmworkTable
  }

  /** The rating validators: absent, or within [0, 10]. */
  predicate ValidRating(rating: Option<real>) {
    rating.None? || 0.0 <= rating.value <= 10.0
  }

  predicate ValidName(s: string) {
    |s| <= MAX_NAME_LENGTH
  }

  /** The declared constraints every stored entity meets. */
  predicate Valid(e: Entity) {
    match e
    case GenreRecord(g) =>
      Timestamp.Valid(g.created) && Timestamp.Valid(g.modified) && ValidName(g.name)
    case PersonRecord(p) =>
      Timestamp.Valid(p.created) && Timestamp.Valid(p.modified) && ValidName(p.fullName)
    case FilmworkRecord(f) =>
      Timestamp.Valid(f.created) && Timestamp.Valid(f.modified) && ValidName(f.title)
      && ValidRating(f.rating)
    case GenreFilmworkRecord(j) => Timestamp.Valid(j.created)
    case PersonFilmworkRecord(j) => Timestamp.Valid(j.created)
  }

  const SCHEMA := "content"

  /** The table name inside the `content` schema. */
  function TableName(k: TableKind): string {
    match k
    case GenreTable => "genre"
    case PersonTable => "person"
    case FilmworkTable => "film_work"
    case GenreFilmworkTable => "genre_film_work"
    case PersonFilmworkTable => "person_film_work"
  }

  /** `Meta.db_table`: the schema and table joined by a closing and an opening quote. */
  function DbTable(k: TableKind): string {
    SCHEMA + "\".\"" + TableName(k)
  }

  /** Quoting `db_table` as one identifier yields the schema-qualified `"content"."<table>"`. */
  lemma QuotedDbTable(k: TableKind)
    ensures "\"" + DbTable(k) + "\"" == "\"" + SCHEMA + "\"" + "." + "\"" + TableName(k) + "\""
  {
  }

  /** The model's concrete fields, mixin fields first. */
  function Fields(k: TableKind): seq<string> {
    match k
    case GenreTable => ["id", "created", "modified", "name", "description"]
    case PersonTable => ["id", "created", "modified", "full_name"]
    case FilmworkTable =>
      ["id", "created", "modified", "title", "description", "creation_date", "file_path",
       "rating", "film_type"]
    case GenreFilmworkTable => ["id", "film_work", "genre", "created"]
    case PersonFilmworkTable => ["id", "film_work", "person", "role", "created"]
  }

  predicate IsForeignKey(k: TableKind, field: string) {
    match k
    case GenreFilmworkTable => field == "film_work" || field == "genre"
    case PersonFilmworkTable => field == "film_work" || field == "person"
    case _ => false
  }

  /** The column a field is stored in: `db_column='type'`, `<name>_id` for a foreign key. */
  function Column(k: TableKind, field: string): string {
    if k == FilmworkTable && field == "film_type" then "type"
    else if IsForeignKey(k, field) then field + "_id"
    else field
  }

  function Columns(k: TableKind): (cs: seq<string>)
    ensures |cs| == |Fields(k)|
    ensures forall i :: 0 <= i < |cs| ==> cs[i] == Column(k, Fields(k)[i])
  {
    match k
    case GenreTable => ["id", "created", "modified", "name", "description"]
    case PersonTable => ["id", "created", "modified", "full_name"]
    case FilmworkTable =>
      ["id", "created", "modified", "title", "description", "creation_date", "file_path",
       "rating", "type"]
    case GenreFilmworkTable => ["id", "film_work_id", "genre_id", "created"]
    case PersonFilmworkTable => ["id", "film_work_id", "person_id", "role", "created"]
  }

  /** No two fields of a model share a column. */
  lemma ColumnsDistinct(k: TableKind)
    ensures Distinct(Columns(k))
  {
    match k
    case GenreTable => GenreColumnsDistinct();
    case PersonTable => PersonColumnsDistinct();
    case FilmworkTable => FilmworkColumnsDistinct();
    case GenreFilmworkTable => GenreFilmworkColumnsDistinct();
    case PersonFilmworkTable => PersonFilmworkColumnsDistinct();
  }

  lemma GenreColumnsDistinct()
    ensures Distinct(Columns(GenreTable))
  {
    DistinctLengths(Columns(GenreTable), [2, 7, 8, 4, 11]);
  }

  lemma PersonColumnsDistinct()
    ensures Distinct(Columns(PersonTable))
  {
    DistinctLengths(Columns(PersonTable), [2, 7, 8, 9]);
  }

  lemma FilmworkColumnsDistinct()
    ensures Distinct(Columns(FilmworkTable))
  {
    DistinctLengths(Columns(FilmworkTable), [2, 7, 8, 5, 11, 13, 9, 6, 4]);
  }

  lemma GenreFilmworkColumnsDistinct()
    ensures Distinct(Columns(GenreFilmworkTable))
  {
    DistinctLengths(Columns(GenreFilmworkTable), [2, 12, 8, 7]);
  }

  lemma PersonFilmworkColumnsDistinct()
    ensures Distinct(Columns(PersonFilmworkTable))
  {
    DistinctLengths(Columns(PersonFilmworkTable), [2, 12, 9, 4, 7]);
  }

  /** Strings of pairwise different lengths are pairwise different. */
  lemma DistinctLengths(cs: seq<string>, lengths: seq<int>)
    requires |lengths| == |cs| && Distinct(lengths)
    requires forall i :: 0 <= i < |cs| ==> lengths[i] == |cs[i]|
    ensures Distinct(cs)
  {
  }

  /**
   * The unique column sets of each table: the primary key everywhere, plus the
   * `name_uniq` and `film_work_person_role_uniq` constraints.
   */
  function UniqueColumns(k: TableKind): (r: seq<seq<string>>)
    ensures ["id"] in r
    ensures forall key :: key in r ==> key != [] && Distinct(key)
  {
    match k
    case GenreTable => [["id"], ["name"]]
    case PersonFilmworkTable => [["id"], ["film_work_id", "person_id", "role"]]
    case _ => [["id"]]
  }

  datatype SchemaError =
    | MissingColumn(column: string)
    | WrongType(column: string)
    | TooLong(column: string)
    | InvalidChoice(column: string, raw: Value)
    | OutOfRange(column: string)

  function OptText(s: Option<string>): Value {
    if s.Some? then Text(s.value) else Null
  }

  function OptDay(d: Option<Date>): Value {
    if d.Some? then Day(d.value) else Null
  }

  function OptReal(r: Option<real>): Value {
    if r.Some? then Real(r.value) else Null
  }

  function FilmworkRow(f: Filmwork): Dict {
    map["id" := Text(f.id), "created" := Stamp(f.created), "modified" := Stamp(f.modified),
        "title" := Text(f.title), "description" := OptText(f.description),
        "creation_date" := OptDay(f.creationDate), "file_path" := OptText(f.filePath),
        "rating" := OptReal(f.rating), "type" := Text(FilmTypeValue(f.filmType))]
  }

  /** An entity laid out as a row of its table, one entry per column. */
  function ToRow(e: Entity): Dict {
    match e
    case GenreRecord(g) =>
      map["id" := Text(g.id), "created" := Stamp(g.created), "modified" := Stamp(g.modified),
          "name" := Text(g.name), "description" := OptText(g.description)]
    case PersonRecord(p) =>
      map["id" := Text(p.id), "created" := Stamp(p.created), "modified" := Stamp(p.modified),
          "full_name" := Text(p.fullName)]
    case FilmworkRecord(f) => FilmworkRow(f)
    case GenreFilmworkRecord(j) =>
      map["id" := Text(j.id), "film_work_id" := Text(j.filmWork), "genre_id" := Text(j.genre),
          "created" := Stamp(j.created)]
    case PersonFilmworkRecord(j) =>
      map["id" := Text(j.id), "film_work_id" := Text(j.filmWork), "person_id" := Text(j.person),
          "role" := Text(RoleValue(j.role)), "created" := Stamp(j.created)]
  }

  function GetText(d: Dict, c: string): Result<string, SchemaError> {
    if c !in d then Err(MissingColumn(c))
    else if d[c].Text? then Ok(d[c].s)
    else Err(WrongType(c))
  }

  /** A `CharField(max_length=255)`. */
  function GetName(d: Dict, c: string): Result<string, SchemaError> {
    var s :- GetText(d, c);
    if ValidName(s) then Ok(s) else Err(TooLong(c))
  }

  /** A nullable text column. */
  function GetOptText(d: Dict, c: string): Result<Option<string>, SchemaError> {
    if c !in d then Err(MissingColumn(c))
    else if d[c].Null? then Ok(None)
    else if d[c].Text? then Ok(Some(d[c].s))
    else Err(WrongType(c))
  }

  function GetStamp(d: Dict, c: string): Result<Instant, SchemaError> {
    if c !in d then Err(MissingColumn(c))
    else if d[c].Stamp? && Timestamp.Valid(d[c].t) then Ok(d[c].t)
    else Err(WrongType(c))
  }

  function GetOptDate(d: Dict, c: string): Result<Option<Date>, SchemaError> {
    if c !in d then Err(MissingColumn(c))
    else if d[c].Null? then Ok(None)
    else if d[c].Day? then Ok(Some(d[c].d))
    else Err(WrongType(c))
  }

  /** The nullable rating, checked against its two validators. */
  function GetRating(d: Dict, c: string): Result<Option<real>, SchemaError> {
    if c !in d then Err(MissingColumn(c))
    else if d[c].Null? then Ok(None)
    else if !d[c].Real? then Err(WrongType(c))
    else if 0.0 <= d[c].r <= 10.0 then Ok(Some(d[c].r))
    else Err(OutOfRange(c))
  }

  function GetFilmType(d: Dict, c: string): Result<FilmType, SchemaError> {
    var s :- GetText(d, c);
    var t := ParseFilmType(s);
    if t.Some? then Ok(t.value) else Err(InvalidChoice(c, d[c]))
  }

  function GetRole(d: Dict, c: string): Result<Role, SchemaError> {
    var s :- GetText(d, c);
    var r := ParseRole(s);
    if r.Some? then Ok(r.value) else Err(InvalidChoice(c, d[c]))
  }

  function GenreFromRow(d: Dict): Result<Genre, SchemaError> {
    var id :- GetText(d, "id");
    var created :- GetStamp(d, "created");
    var modified :- GetStamp(d, "modified");
    var name :- GetName(d, "name");
    var description :- GetOptText(d, "description");
    Ok(Genre(id, created, modified, name, description))
  }

  function PersonFromRow(d: Dict): Result<Person, SchemaError> {
    var id :- GetText(d, "id");
    var created :- GetStamp(d, "created");
    var modified :- GetStamp(d, "modified");
    var fullName :- GetName(d, "full_name");
    Ok(Person(id, created, modified, fullName))
  }

  function FilmworkFromRow(d: Dict): Result<Filmwork, SchemaError> {
    var id :- GetText(d, "id");
    var created :- GetStamp(d, "created");
    var modified :- GetStamp(d, "modified");
    var title :- GetName(d, "title");
    var description :- GetOptText(d, "description");
    var creationDate :- GetOptDate(d, "creation_date");
    var filePath :- GetOptText(d, "file_path");
    var rating :- GetRating(d, "rating");
    var filmType :- GetFilmType(d, "type");
    Ok(Filmwork(id, created, modified, title, description, creationDate, filePath, rating,
                filmType))
  }

  function GenreFilmworkFromRow(d: Dict): Result<GenreFilmwork, SchemaError> {
    var id :- GetText(d, "id");
    var filmWork :- GetText(d, "film_work_id");
    var genre :- GetText(d, "genre_id");
    var created :- GetStamp(d, "created");
    Ok(GenreFilmwork(id, filmWork, genre, created))
  }

  function PersonFilmworkFromRow(d: Dict): Result<PersonFilmwork, SchemaError> {
    var id :- GetText(d, "id");
    var filmWork :- GetText(d, "film_work_id");
    var person :- GetText(d, "person_id");
    var role :- GetRole(d, "role");
    var created :- GetStamp(d, "created");
    Ok(PersonFilmwork(id, filmWork, person, role, created))
  }

  /** Read a row of table `k` back into an entity, enforcing the declared constraints. */
  function FromRow(k: TableKind, d: Dict): Result<Entity, SchemaError> {
    match k
    case GenreTable =>
      var g :- GenreFromRow(d);
      Ok(GenreRecord(g))
    case PersonTable =>
      var p :- PersonFromRow(d);
      Ok(PersonRecord(p))
    case FilmworkTable =>
      var f :- FilmworkFromRow(d);
      Ok(FilmworkRecord(f))
    case GenreFilmworkTable =>
      var j :- GenreFilmworkFromRow(d);
      Ok(GenreFilmworkRecord(j))
    case PersonFilmworkTable =>
      var j :- PersonFilmworkFromRow(d);
      Ok(PersonFilmworkRecord(j))
  }

  /** A row holds exactly the columns of its table. */
  lemma ToRowColumns(e: Entity)
    ensures ToRow(e).Keys == set c | c in Columns(KindOf(e))
  {
  }

  /** Every entity that meets the declared constraints is read back from its own row. */
  lemma FromToRow(e: Entity)
    requires Valid(e)
    ensures FromRow(KindOf(e), ToRow(e)) == Ok(e)
  {
    if e.FilmworkRecord? {
      FilmworkFromToRow(e.filmwork);
    }
  }

  /** The film work case of `FromToRow`, column by column. */
  lemma FilmworkFromToRow(f: Filmwork)
    requires Valid(FilmworkRecord(f))
    ensures FilmworkFromRow(FilmworkRow(f)) == Ok(f)
  {
    var d := FilmworkRow(f);
    assert GetText(d, "id") == Ok(f.id);
    assert GetStamp(d, "created") == Ok(f.created);
    assert GetStamp(d, "modified") == Ok(f.modified);
    assert GetName(d, "title") == Ok(f.title);
    assert GetOptText(d, "description") == Ok(f.description);
    assert GetOptDate(d, "creation_date") == Ok(f.creationDate);
    assert GetOptText(d, "file_path") == Ok(f.filePath);
    assert GetRating(d, "rating") == Ok(f.rating);
    assert GetFilmType(d, "type") == Ok(f.filmType);
  }

  /** What each accepted column read says about the row it was read from. */
  lemma TextSound(d: Dict, c: string)
    requires GetText(d, c).Ok?
    ensures c in d && d[c] == Text(GetText(d, c).value)
  {
  }

  lemma NameSound(d: Dict, c: string)
    requires GetName(d, c).Ok?
    ensures c in d && d[c] == Text(GetName(d, c).value) && ValidName(GetName(d, c).value)
  {
  }

  lemma OptTextSound(d: Dict, c: string)
    requires GetOptText(d, c).Ok?
    ensures c in d && d[c] == OptText(GetOptText(d, c).value)
  {
  }

  lemma StampSound(d: Dict, c: string)
    requires GetStamp(d, c).Ok?
    ensures c in d && d[c] == Stamp(GetStamp(d, c).value) && Timestamp.Valid(GetStamp(d, c).value)
  {
  }

  lemma OptDateSound(d: Dict, c: string)
    requires GetOptDate(d, c).Ok?
    ensures c in d && d[c] == OptDay(GetOptDate(d, c).value)
  {
  }

  lemma RatingSound(d: Dict, c: string)
    requires GetRating(d, c).Ok?
    ensures c in d && d[c] == OptReal(GetRating(d, c).value) && ValidRating(GetRating(d, c).value)
  {
  }

  lemma FilmTypeSound(d: Dict, c: string)
    requires GetFilmType(d, c).Ok?
    ensures c in d && d[c] == Text(FilmTypeValue(GetFilmType(d, c).value))
  {
  }

  lemma RoleSound(d: Dict, c: string)
    requires GetRole(d, c).Ok?
    ensures c in d && d[c] == Text(RoleValue(GetRole(d, c).value))
  {
  }

  /** The property `ToFromRow` states, for one table. */
  predicate ReadsBack(k: TableKind, d: Dict)
    requires FromRow(k, d).Ok?
  {
    var e := FromRow(k, d).value;
    Valid(e) && KindOf(e) == k && forall c :: c in ToRow(e) ==> c in d && d[c] == ToRow(e)[c]
  }

  lemma GenreReadsBack(d: Dict)
    requires FromRow(GenreTable, d).Ok?
    ensures ReadsBack(GenreTable, d)
  {
    TextSound(d, "id");
    StampSound(d, "created");
    StampSound(d, "modified");
    NameSound(d, "name");
    OptTextSound(d, "description");
  }

  lemma PersonReadsBack(d: Dict)
    requires FromRow(PersonTable, d).Ok?
    ensures ReadsBack(PersonTable, d)
  {
    TextSound(d, "id");
    StampSound(d, "created");
    StampSound(d, "modified");
    NameSound(d, "full_name");
  }

  lemma FilmworkReadsBack(d: Dict)
    requires FromRow(FilmworkTable, d).Ok?
    ensures ReadsBack(FilmworkTable, d)
  {
    var f := FilmworkFromRow(d).value;
    assert FromRow(FilmworkTable, d).value == FilmworkRecord(f);
    FilmworkColumnsRead(d);
    var row := FilmworkRow(f);
    forall c | c in row ensures c in d && d[c] == row[c] {
    }
  }

  /** The columns an accepted film work row was read from, one by one. */
  lemma FilmworkColumnsRead(d: Dict)
    requires FilmworkFromRow(d).Ok?
    ensures var f := FilmworkFromRow(d).value;
      && Valid(FilmworkRecord(f))
      && "id" in d && d["id"] == Text(f.id)
      && "created" in d && d["created"] == Stamp(f.created)
      && "modified" in d && d["modified"] == Stamp(f.modified)
      && "title" in d && d["title"] == Text(f.title)
      && "description" in d && d["description"] == OptText(f.description)
      && "creation_date" in d && d["creation_date"] == OptDay(f.creationDate)
      && "file_path" in d && d["file_path"] == OptText(f.filePath)
      && "rating" in d && d["rating"] == OptReal(f.rating)
      && "type" in d && d["type"] == Text(FilmTypeValue(f.filmType))
  {
    TextSound(d, "id");
    StampSound(d, "created");
    StampSound(d, "modified");
    NameSound(d, "title");
    OptTextSound(d, "description");
    OptDateSound(d, "creation_date");
    OptTextSound(d, "file_path");
    RatingSound(d, "rating");
    FilmTypeSound(d, "type");
  }

  lemma GenreFilmworkReadsBack(d: Dict)
    requires FromRow(GenreFilmworkTable, d).Ok?
    ensures ReadsBack(GenreFilmworkTable, d)
  {
    TextSound(d, "id");
    TextSound(d, "film_work_id");
    TextSound(d, "genre_id");
    StampSound(d, "created");
  }

  lemma PersonFilmworkReadsBack(d: Dict)
    requires FromRow(PersonFilmworkTable, d).Ok?
    ensures ReadsBack(PersonFilmworkTable, d)
  {
    TextSound(d, "id");
    TextSound(d, "film_work_id");
    TextSound(d, "person_id");
    RoleSound(d, "role");
    StampSound(d, "created");
  }

  /**
   * A row is accepted only if it meets the declared constraints, and then it agrees with
   * the layout of the entity it was read as on every column of the table.
   */
  lemma ToFromRow(k: TableKind, d: Dict)
    requires FromRow(k, d).Ok?
    ensures var e := FromRow(k, d).value;
      Valid(e) && KindOf(e) == k && forall c :: c in ToRow(e) ==> c in d && d[c] == ToRow(e)[c]
  {
    match k
    case GenreTable => GenreReadsBack(d);
    case PersonTable => PersonReadsBack(d);
    case FilmworkTable => FilmworkReadsBack(d);
    case GenreFilmworkTable => GenreFilmworkReadsBack(d);
    case PersonFilmworkTable => PersonFilmworkReadsBack(d);
  }

  /** A film work row without one of the three film type choices is refused, whatever else it holds. */
  lemma RejectsUnknownFilmType(d: Dict)
    requires "type" !in d || !d["type"].Text? || ParseFilmType(d["type"].s).None?
    ensures FromRow(FilmworkTable, d).Err?
  {
  }
}
