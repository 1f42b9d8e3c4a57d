/**
 * The `loadData` shared by the two JSON repositories, with the decoded
 * file as input: a missing or undecodable file gives an empty store, an
 * entry without `id` is dropped, and an entry whose id was seen before
 * replaces the earlier one in place. `saveData` writes the rows back as a
 * list (`array_values`), each carrying its id.
 */
module JsonStore {
  import opened Sequences
  import opened PhpArrays

  /** One element of the decoded JSON list: a row with an `id`, or anything else. */
  datatype Entry<R> = Unkeyed | Keyed(id: int, row: R)

  /** The storage file as `loadData` finds it. */
  datatype StoreFile<R> = Missing | Undecodable | Entries(entries: seq<Entry<R>>)

  /** The (id, row) pairs of the entries that have an id, in file order. */
  function KeyedPairs<R>(es: seq<Entry<R>>): (ps: seq<(int, R)>)
    ensures |ps| <= |es|
  {
    if es == [] then []
    else
      var n := |es| - 1;
      KeyedPairs(es[..n]) + (if es[n].Keyed? then [(es[n].id, es[n].row)] else [])
  }

  /** What `loadData` returns. */
  function Loaded<R>(file: StoreFile<R>): OMap<int, R> {
    match file
    case Entries(es) => PutAll([], KeyedPairs(es))
    case _ => []
  }

  /** `loadData`: `$data[(int) $row['id']] = $row` for every entry that has an id. */
  method LoadData<R>(file: StoreFile<R>) returns (data: OMap<int, R>)
    ensures data == Loaded(file)
  {
    if !file.Entries? {
      return [];
    }
    var es := file.entries;
    assert Loaded(file) == PutAll([], KeyedPairs(es));
    data := [];
    for i := 0 to |es|
      invariant data == PutAll([], KeyedPairs(es[..i]))
    {
      LoadStep(es, i);
      if es[i].Keyed? {
        data := Put(data, es[i].id, es[i].row);
      }
    }
    assert es[..|es|] == es;
  }

  /** One more entry read: a keyed one is assigned, an unkeyed one changes nothing. */
  lemma LoadStep<R>(es: seq<Entry<R>>, i: nat)
    requires i < |es|
    ensures PutAll([], KeyedPairs(es[..i + 1])) ==
              if es[i].Keyed? then Put(PutAll([], KeyedPairs(es[..i])), es[i].id, es[i].row)
              else PutAll([], KeyedPairs(es[..i]))
  {
    var done := KeyedPairs(es[..i]);
    KeyedPairsStep(es, i);
    if es[i].Keyed? {
      PutAllSnoc([], done, es[i].id, es[i].row);
    } else {
      assert done + [] == done;
    }
  }

  lemma KeyedPairsStep<R>(es: seq<Entry<R>>, i: nat)
    requires i < |es|
    ensures KeyedPairs(es[..i + 1]) ==
              KeyedPairs(es[..i]) + (if es[i].Keyed? then [(es[i].id, es[i].row)] else [])
  {
    assert es[..i + 1][..i] == es[..i];
  }

  /** A loaded store has each id once. */
  lemma LoadedIsMap<R>(file: StoreFile<R>)
    ensures IsMap(Loaded(file))
  {
    if file.Entries? {
      PutAllIsMap([], KeyedPairs(file.entries));
    }
  }

  /**
   * The stored row for an id is the one of its LAST entry in the file, and
   * the ids are listed in the order of their FIRST entry.
   */
  lemma LoadedLookup<R>(es: seq<Entry<R>>, id: int)
    ensures Get(Loaded(Entries(es)), id) == LastGet(KeyedPairs(es), id)
    ensures Keys(Loaded(Entries(es))) == Dedup(Keys(KeyedPairs(es)))
  {
    PutAllGet([], KeyedPairs(es), id);
    PutAllKeys(KeyedPairs(es));
  }

  /** `saveData`: the rows as a list, each with its id. */
  function Written<R>(data: OMap<int, R>): (es: seq<Entry<R>>)
    ensures |es| == |data|
  {
    seq(|data|, i requires 0 <= i < |data| => Keyed(data[i].0, data[i].1))
  }

  lemma {:induction false} KeyedPairsWritten<R>(data: OMap<int, R>)
    ensures KeyedPairs(Written(data)) == data
  {
    if data != [] {
      var n := |data| - 1;
      assert Written(data)[..n] == Written(data[..n]);
      KeyedPairsWritten(data[..n]);
      assert data == data[..n] + [data[n]];
    }
  }

  /** Writing the store and loading it back gives the same store. */
  lemma LoadWritten<R>(data: OMap<int, R>)
    requires IsMap(data)
    ensures Loaded(Entries(Written(data))) == data
  {
    KeyedPairsWritten(data);
    PutAllDistinct(data);
  }
}
