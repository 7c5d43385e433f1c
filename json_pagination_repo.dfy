/** `scraper/infrastructure/json_pagination_repo.py`: paginations kept as a
    JSON list in one file, keyed by id. The file is the `contents` field;
    `None` stands for a missing file. */
module JsonPaginationRepository {
  import opened Wrappers
  import opened JsonStore
  import opened PaginationDomain

  function IdOf(p: Pagination): nat {
    p.id
  }

  /** The pydantic `ValidationError` raised by a file that does not
      validate. */
  datatype RepoError = ValidationError(errors: string)

  /** What `get` answers: the whole list (no id) or the lookup by id. */
  datatype Answer = Listing(all: seq<Pagination>) | Found(match_: Option<Pagination>)

  /** `get(id)` on the file's contents. An id is a UUID, which is always
      truthy, so any given id is looked up. */
  function Query(contents: Contents<Pagination>, id: Option<nat>): (r: Result<Answer, RepoError>)
    ensures contents.Invalid? <==> r.Err?
    ensures id.None? && contents.Records? ==> r == Ok(Listing(contents.records))
    ensures id.Some? && contents.Records? ==>
              r.Ok? && r.value.Found? && (r.value.match_.Some? <==> HasKey(contents.records, id.value, IdOf))
  {
    match contents
    case Invalid(errors) => Err(ValidationError(errors))
    case Records(records) =>
      if id.Some? then Ok(Found(FirstMatch(records, id.value, IdOf))) else Ok(Listing(records))
  }

  class JsonPaginationRepo {
    var contents: Contents<Pagination>

    /** A missing file is created holding "[]"; an existing one is kept. */
    constructor (existing: Option<Contents<Pagination>>)
      ensures contents == if existing.None? then Records([]) else existing.value
    {
      if existing.None? {
        contents := Records([]);
      } else {
        contents := existing.value;
      }
    }

    /** `add(pagination)`: read the list, replace the records with the same
        id or append, write the list back. Fails, writing nothing, when the
        file does not validate. */
    method Add(pagination: Pagination) returns (r: Result<(), RepoError>)
      modifies this
      ensures old(contents).Invalid? ==> r == Err(ValidationError(old(contents).errors)) && contents == old(contents)
      ensures old(contents).Records? ==> r == Ok(()) && contents == Records(Upsert(old(contents).records, pagination, IdOf))
    {
      var all := Get(None);
      if all.Err? {
        return Err(all.error);
      }
      var paginations := all.value.all;
      if HasKey(paginations, pagination.id, IdOf) {
        paginations := seq(|paginations|, i requires 0 <= i < |paginations| =>
                             if paginations[i].id != pagination.id then paginations[i] else pagination);
      } else {
        paginations := paginations + [pagination];
      }
      contents := Records(paginations);
      return Ok(());
    }

    /** `get(id)`. */
    method Get(id: Option<nat>) returns (r: Result<Answer, RepoError>)
      ensures r == Query(contents, id)
    {
      match contents {
        case Invalid(errors) =>
          return Err(ValidationError(errors));
        case Records(paginations) =>
          if id.Some? {
            return Ok(Found(FirstMatch(paginations, id.value, IdOf)));
          }
          return Ok(Listing(paginations));
      }
    }
  }

  /** After `add(p)` on a valid file, `get(p.id)` is `p` and every other id
      answers as before. */
  lemma AddThenGet(records: seq<Pagination>, p: Pagination, other: nat)
    requires other != p.id
    ensures Query(Records(Upsert(records, p, IdOf)), Some(p.id)) == Ok(Found(Some(p)))
    ensures Query(Records(Upsert(records, p, IdOf)), Some(other)) == Query(Records(records), Some(other))
  {
    UpsertThenFind(records, p, IdOf);
    UpsertKeepsOthers(records, p, IdOf, other);
  }
}
