/**
 * `ClientService`: the use cases over the client repository. Creating and
 * updating refuse a document that another active client already holds;
 * the repository is the JSON one, so "the store" below is its table.
 */
module ClientServices {
  import opened Wrappers
  import opened PhpArrays
  import opened DomainCommon
  import opened DomainModels
  import opened JsonClientRepo

  /** `DocumentAlreadyExistsException`. */
  datatype ServiceError = DocumentAlreadyExists

  /** The store and the answer after `create`, with `now` the repository's clock. */
  function CreateOutcome(t: Table, name: string, phone: string, clientType: string, document: string, now: string)
    : (Table, Result<Client, ServiceError>)
  {
    if DocumentOwner(t, document, None).Some? then (t, Failure(DocumentAlreadyExists))
    else
      var client := NewClient(None, name, phone, clientType, document);
      (AfterSave(t, client, now), Success(RowToClient((SavedId(t, client), SavedRow(t, client, now)))))
  }

  /**
   * The store and the answer after `update`: no client for a missing or
   * soft-deleted id, the exception for a document held by another active
   * client, and otherwise the saved client.
   */
  function UpdateOutcome(t: Table, id: int, name: string, phone: string, clientType: string, document: string, now: string)
    : (Table, Result<Option<Client>, ServiceError>)
  {
    var current := Lookup(t, id);
    if current.None? then (t, Success(None))
    else if DocumentOwner(t, document, Some(id)).Some? then (t, Failure(DocumentAlreadyExists))
    else
      var client := Client(current.value.id, name, phone, clientType, document, current.value.createdAt, Some(now), None);
      (AfterSave(t, client, now), Success(Some(RowToClient((SavedId(t, client), SavedRow(t, client, now))))))
  }

  class ClientService {
    const repo: JsonClientRepository

    constructor (repo: JsonClientRepository)
      ensures this.repo == repo
    {
      this.repo := repo;
    }

    /** `getById`. */
    method GetById(id: int) returns (c: Option<Client>)
      ensures c == Lookup(repo.table, id)
    {
      c := repo.FindById(id);
    }

    /** `list`; None where the repository's `findAll` throws. */
    method List(criteria: ListCriteria) returns (r: Option<ListResult<Client>>)
      ensures r == FindAllSpec(repo.table, criteria)
    {
      r := repo.FindAll(criteria);
    }

    /** `create`. */
    method Create(name: string, phone: string, clientType: string, document: string, now: string)
      returns (r: Result<Client, ServiceError>)
      requires repo.Valid()
      modifies repo
      ensures repo.Valid()
      ensures (repo.table, r) == CreateOutcome(old(repo.table), name, phone, clientType, document, now)
    {
      var owner := repo.FindByDocument(document, None);
      if owner.Some? {
        return Failure(DocumentAlreadyExists);
      }
      var client := NewClient(None, name, phone, clientType, document);
      var saved := repo.Save(client, now);
      return Success(saved);
    }

    /** `update`; `now` stands for both the service's and the repository's clock. */
    method Update(id: int, name: string, phone: string, clientType: string, document: string, now: string)
      returns (r: Result<Option<Client>, ServiceError>)
      requires repo.Valid()
      modifies repo
      ensures repo.Valid()
      ensures (repo.table, r) == UpdateOutcome(old(repo.table), id, name, phone, clientType, document, now)
    {
      var current := repo.FindById(id);
      if current.None? {
        return Success(None);
      }
      var owner := repo.FindByDocument(document, Some(id));
      if owner.Some? {
        return Failure(DocumentAlreadyExists);
      }
      var client := Client(current.value.id, name, phone, clientType, document, current.value.createdAt, Some(now), None);
      var saved := repo.Save(client, now);
      return Success(Some(saved));
    }

    /** `delete`. */
    method Delete(id: int, now: string) returns (ok: bool)
      requires repo.Valid()
      modifies repo
      ensures repo.Valid()
      ensures ok == Deletable(old(repo.table), id)
      ensures repo.table == AfterDelete(old(repo.table), id, now)
    {
      ok := repo.Delete(id, now);
    }
  }

  // ------------------------------------------------------------ properties

  /** No two active clients with different ids share a document. */
  predicate UniqueActiveDocuments(t: Table) {
    forall e1, e2 :: e1 in t && e2 in t && Active(e1.1) && Active(e2.1) && e1.1.document == e2.1.document ==> e1.0 == e2.0
  }

  /** A refused create changes nothing; otherwise the new client is stored under a fresh id and found by it. */
  lemma CreateEffect(t: Table, name: string, phone: string, clientType: string, document: string, now: string)
    ensures var (t', r) := CreateOutcome(t, name, phone, clientType, document, now);
            (r.Failure? <==> DocumentOwner(t, document, None).Some?) &&
            (r.Failure? ==> t' == t) &&
            (r.Success? ==>
               r.value.id == Some(NextId(t)) && Keys(t') == Keys(t) + [NextId(t)] &&
               r.value.name == name && r.value.phone == phone && r.value.clientType == clientType &&
               r.value.document == document && r.value.createdAt == Some(now) && r.value.updatedAt == Some(now) &&
               Lookup(t', NextId(t)) == Some(r.value))
  {
    var client := NewClient(None, name, phone, clientType, document);
    if DocumentOwner(t, document, None).None? {
      SaveInsert(t, client, now);
      SaveThenFind(t, client, now);
    }
  }

  /**
   * An update of a missing or deleted client answers null and changes
   * nothing; a refused one changes nothing; a successful one keeps the id
   * and the stored creation time and stamps the update time.
   */
  lemma UpdateEffect(t: Table, id: int, name: string, phone: string, clientType: string, document: string, now: string)
    ensures var (t', r) := UpdateOutcome(t, id, name, phone, clientType, document, now);
            (Lookup(t, id).None? ==> t' == t && r == Success(None)) &&
            (Lookup(t, id).Some? ==> (r.Failure? <==> DocumentOwner(t, document, Some(id)).Some?)) &&
            (r.Failure? ==> t' == t) &&
            (r.Success? && r.value.Some? ==>
               var c := r.value.value;
               c.id == Some(id) && Keys(t') == Keys(t) &&
               c.name == name && c.phone == phone && c.clientType == clientType && c.document == document &&
               c.createdAt == Some(Lookup(t, id).value.createdAt.GetOr(now)) && c.updatedAt == Some(now) &&
               Lookup(t', id) == Some(c))
  {
    var current := Lookup(t, id);
    if current.Some? && DocumentOwner(t, document, Some(id)).None? {
      var client := Client(current.value.id, name, phone, clientType, document, current.value.createdAt, Some(now), None);
      SaveUpdate(t, client, now);
      SaveThenFind(t, client, now);
    }
  }

  /** `create` keeps active documents unique. */
  lemma CreateKeepsDocumentsUnique(t: Table, name: string, phone: string, clientType: string, document: string, now: string)
    requires UniqueActiveDocuments(t)
    ensures UniqueActiveDocuments(CreateOutcome(t, name, phone, clientType, document, now).0)
  {
    if DocumentOwner(t, document, None).None? {
      var client := NewClient(None, name, phone, clientType, document);
      var e := (SavedId(t, client), SavedRow(t, client, now));
      var t' := Put(t, e.0, e.1);
      forall x | x in t && Active(x.1) ensures x.1.document != document {
        var i :| 0 <= i < |t| && t[i] == x;
        assert !DocumentHit(t[i], document, None);
      }
      forall e1, e2 | e1 in t' && e2 in t' && Active(e1.1) && Active(e2.1) && e1.1.document == e2.1.document
        ensures e1.0 == e2.0
      {
        PutEntry(t, e.0, e.1, e1);
        PutEntry(t, e.0, e.1, e2);
      }
    }
  }

  /** `update` keeps active documents unique. */
  lemma UpdateKeepsDocumentsUnique(t: Table, id: int, name: string, phone: string, clientType: string, document: string, now: string)
    requires UniqueActiveDocuments(t)
    ensures UniqueActiveDocuments(UpdateOutcome(t, id, name, phone, clientType, document, now).0)
  {
    var current := Lookup(t, id);
    if current.Some? && DocumentOwner(t, document, Some(id)).None? {
      var client := Client(current.value.id, name, phone, clientType, document, current.value.createdAt, Some(now), None);
      var e := (SavedId(t, client), SavedRow(t, client, now));
      assert e.0 == id;
      var t' := Put(t, e.0, e.1);
      forall x | x in t && Active(x.1) && x.1.document == document ensures x.0 == id {
        var i :| 0 <= i < |t| && t[i] == x;
        assert !DocumentHit(t[i], document, Some(id));
      }
      forall e1, e2 | e1 in t' && e2 in t' && Active(e1.1) && Active(e2.1) && e1.1.document == e2.1.document
        ensures e1.0 == e2.0
      {
        PutEntry(t, e.0, e.1, e1);
        PutEntry(t, e.0, e.1, e2);
      }
    }
  }

  /** `delete` keeps active documents unique: it only deactivates a row. */
  lemma DeleteKeepsDocumentsUnique(t: Table, id: int, now: string)
    requires IsTimestamp(now)
    requires UniqueActiveDocuments(t)
    ensures UniqueActiveDocuments(AfterDelete(t, id, now))
  {
    if Deletable(t, id) {
      var e := (id, Get(t, id).value.(deletedAt := Some(now)));
      TimestampNotEmpty(now);
      assert !Active(e.1);
      var t' := AfterDelete(t, id, now);
      forall e1, e2 | e1 in t' && e2 in t' && Active(e1.1) && Active(e2.1) && e1.1.document == e2.1.document
        ensures e1.0 == e2.0
      {
        PutEntry(t, e.0, e.1, e1);
        PutEntry(t, e.0, e.1, e2);
      }
    }
  }
}
