/** `ClientListCriteriaConfig`: the listing whitelists and limits of the client resource. */
module ClientCriteriaConfig {
  import opened PhpArrays
  import opened CriteriaConfig

  const SEARCHABLE: seq<string> := ["name", "document", "phone"]
  const SORTABLE: seq<string> := ["id", "name", "phone", "type", "document", "created_at", "updated_at"]
  const FILTERABLE: seq<string> := ["type"]

  /** The configuration the client listing is parsed against. */
  function ClientConfig(): (c: ListCriteriaConfig)
    ensures c.searchableColumns == ["name", "document", "phone"]
    ensures forall col :: IsFilterable(c, col) <==> col == "type"
    ensures !IsSortable(c, "deleted_at")
    ensures c.maxPerPage == 200 && c.defaultPerPage == 10
    ensures Consistent(c)
  {
    var c := ListCriteriaConfig(SEARCHABLE, SORTABLE, FILTERABLE, 200, 10, [("id", "asc")]);
    assert IsSortable(c, "id");
    assert Keys(c.defaultSort) == ["id"];
    c
  }

  /** The sortable columns are exactly the seven listed; `deleted_at` is not among them. */
  lemma ClientSortable(col: string)
    ensures IsSortable(ClientConfig(), col) <==>
              col in {"id", "name", "phone", "type", "document", "created_at", "updated_at"}
  {
  }
}
