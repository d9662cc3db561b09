/**
 * The collaborators' data as the pipeline sees it: metadata dictionaries, LangChain
 * `Document`s, the Chroma collection (an ordered list of stored records plus a count of
 * `add_documents` calls) and the local filesystem (existing files and directories plus a log
 * of image writes).
 */
module Docs {
  import opened Wrappers
  import opened Text

  /** A metadata value as Chroma stores it: a string, an integer or `None`. */
  datatype Value = VStr(str: string) | VInt(num: int) | VNull

  /** A metadata dictionary. Python's `{**a, k: v}` is `a + map[k := v]`. */
  type Metadata = map<string, Value>

  /** Python truthiness of a metadata value. */
  predicate Truthy(v: Value) {
    match v
    case VStr(s) => s != []
    case VInt(n) => n != 0
    case VNull => false
  }

  /** `str(v)`, which is what an f-string inserts. */
  function Show(v: Value): string {
    match v
    case VStr(s) => s
    case VInt(n) => IntToString(n)
    case VNull => "None"
  }

  /** An optional string as a metadata value (`None` stays `None`). */
  function OptionValue(o: Option<string>): Value {
    if o.Some? then VStr(o.value) else VNull
  }

  /** The string under `key` when it is present and truthy (`if m.get(key): ... m[key]`). */
  function TruthyString(m: Metadata, key: string): Option<string> {
    if key in m && m[key].VStr? && m[key].str != [] then Some(m[key].str) else None
  }

  /** A LangChain `Document`: the chunk text and its metadata. */
  datatype Document = Document(pageContent: string, metadata: Metadata)

  /** A stored entry; `id` is `None` when the caller gave no ids and the store chose them. */
  datatype Record = Record(id: Option<string>, doc: Document)

  /** The records `add_documents(docs, ids=ids)` appends, in order. */
  function Tagged(docs: seq<Document>, ids: Option<seq<string>>): (rs: seq<Record>)
    requires ids.Some? ==> |ids.value| == |docs|
    ensures |rs| == |docs|
    ensures forall i :: 0 <= i < |docs| ==> rs[i].doc == docs[i]
    ensures forall i :: 0 <= i < |docs| ==> rs[i].id == if ids.Some? then Some(ids.value[i]) else None
  {
    seq(|docs|, i requires 0 <= i < |docs| => Record(if ids.Some? then Some(ids.value[i]) else None, docs[i]))
  }

  /** The ids a batch of records brings; a record without one gets a new id from the store. */
  function BatchIds(rs: seq<Record>): (ids: set<string>)
    ensures forall x :: x in ids <==> exists i :: 0 <= i < |rs| && rs[i].id == Some(x)
  {
    set i | 0 <= i < |rs| && rs[i].id.Some? :: rs[i].id.value
  }

  /** A stored record that a batch bringing `ids` replaces. */
  predicate Replaced(r: Record, ids: set<string>) {
    r.id.Some? && r.id.value in ids
  }

  /** The stored records a batch bringing `ids` does not replace, in their original order. */
  function Unreplaced(rs: seq<Record>, ids: set<string>): (out: seq<Record>)
    ensures |out| <= |rs|
    ensures forall r :: r in out <==> r in rs && !Replaced(r, ids)
  {
    if rs == [] then []
    else (if Replaced(rs[0], ids) then [] else [rs[0]]) + Unreplaced(rs[1..], ids)
  }

  /**
   * Chroma's `upsert`: the records whose id the batch brings again give way to the batch,
   * which follows the records that stay.
   */
  function Upsert(rs: seq<Record>, batch: seq<Record>): seq<Record> {
    Unreplaced(rs, BatchIds(batch)) + batch
  }

  /** A batch that brings no ids of its own replaces nothing: it is appended. */
  lemma {:induction false} UpsertWithoutIds(rs: seq<Record>, batch: seq<Record>)
    requires forall i :: 0 <= i < |batch| ==> batch[i].id.None?
    ensures Upsert(rs, batch) == rs + batch
  {
    assert BatchIds(batch) == {};
    UnreplacedNone(rs, BatchIds(batch));
  }

  lemma {:induction false} UnreplacedNone(rs: seq<Record>, ids: set<string>)
    requires ids == {}
    ensures Unreplaced(rs, ids) == rs
  {
    if rs != [] {
      UnreplacedNone(rs[1..], ids);
      assert rs == [rs[0]] + rs[1..];
    }
  }

  lemma {:induction false} UnreplacedAppend(xs: seq<Record>, ys: seq<Record>, ids: set<string>)
    ensures Unreplaced(xs + ys, ids) == Unreplaced(xs, ids) + Unreplaced(ys, ids)
  {
    if xs == [] {
      assert xs + ys == ys;
    } else {
      assert (xs + ys)[0] == xs[0];
      assert (xs + ys)[1..] == xs[1..] + ys;
      UnreplacedAppend(xs[1..], ys, ids);
    }
  }

  lemma {:induction false} UnreplacedTwice(rs: seq<Record>, ids: set<string>)
    ensures Unreplaced(Unreplaced(rs, ids), ids) == Unreplaced(rs, ids)
  {
    if rs != [] {
      var head := if Replaced(rs[0], ids) then [] else [rs[0]];
      UnreplacedAppend(head, Unreplaced(rs[1..], ids), ids);
      UnreplacedTwice(rs[1..], ids);
      if !Replaced(rs[0], ids) {
        assert Unreplaced(head, ids) == [rs[0]] + Unreplaced([rs[0]][1..], ids);
      }
    }
  }

  lemma {:induction false} UnreplacedAll(rs: seq<Record>, ids: set<string>)
    requires forall i :: 0 <= i < |rs| ==> Replaced(rs[i], ids)
    ensures Unreplaced(rs, ids) == []
  {
    if rs != [] {
      UnreplacedAll(rs[1..], ids);
    }
  }

  /**
   * Adding the same batch again, as re-ingesting a document with the same ids does, leaves
   * the store as the first addition left it: every record the batch brings is stored once.
   */
  lemma UpsertIdempotent(rs: seq<Record>, batch: seq<Record>)
    requires forall i :: 0 <= i < |batch| ==> batch[i].id.Some?
    ensures Upsert(Upsert(rs, batch), batch) == Upsert(rs, batch)
  {
    var ids := BatchIds(batch);
    UnreplacedAppend(Unreplaced(rs, ids), batch, ids);
    UnreplacedTwice(rs, ids);
    forall i | 0 <= i < |batch| ensures Replaced(batch[i], ids) {
      assert batch[i].id == Some(batch[i].id.value);
    }
    UnreplacedAll(batch, ids);
    assert Unreplaced(rs, ids) + [] == Unreplaced(rs, ids);
  }

  /** Chroma's `where={key: value}` filter on one record. */
  predicate Matches(r: Record, key: string, value: Value) {
    key in r.doc.metadata && r.doc.metadata[key] == value
  }

  /** The records that the filter does not match, in their original order. */
  function Unmatched(rs: seq<Record>, key: string, value: Value): (out: seq<Record>)
    ensures |out| <= |rs|
    ensures forall r :: r in out <==> r in rs && !Matches(r, key, value)
  {
    if rs == [] then []
    else (if Matches(rs[0], key, value) then [] else [rs[0]]) + Unmatched(rs[1..], key, value)
  }

  /** Deleting by filter keeps every other record exactly as often as it was stored. */
  lemma {:induction false} UnmatchedMultiset(rs: seq<Record>, key: string, value: Value)
    ensures forall r :: multiset(Unmatched(rs, key, value))[r] == if Matches(r, key, value) then 0 else multiset(rs)[r]
  {
    if rs != [] {
      UnmatchedMultiset(rs[1..], key, value);
      assert rs == [rs[0]] + rs[1..];
    }
  }

  /** Number of records the filter matches. */
  function MatchCount(rs: seq<Record>, key: string, value: Value): nat {
    if rs == [] then 0
    else (if Matches(rs[0], key, value) then 1 else 0) + MatchCount(rs[1..], key, value)
  }

  /** Deleting by filter removes exactly the matching records. */
  lemma {:induction false} UnmatchedCount(rs: seq<Record>, key: string, value: Value)
    ensures |Unmatched(rs, key, value)| == |rs| - MatchCount(rs, key, value)
  {
    if rs != [] {
      UnmatchedCount(rs[1..], key, value);
    }
  }

  /** No match means nothing is removed. */
  lemma {:induction false} UnmatchedNoMatch(rs: seq<Record>, key: string, value: Value)
    requires forall i :: 0 <= i < |rs| ==> !Matches(rs[i], key, value)
    ensures Unmatched(rs, key, value) == rs
  {
    if rs != [] {
      UnmatchedNoMatch(rs[1..], key, value);
      assert rs == [rs[0]] + rs[1..];
    }
  }

  /** Some record matches exactly when the match count is positive. */
  lemma {:induction false} MatchCountPositive(rs: seq<Record>, key: string, value: Value)
    ensures MatchCount(rs, key, value) > 0 <==> exists i :: 0 <= i < |rs| && Matches(rs[i], key, value)
  {
    if rs != [] {
      MatchCountPositive(rs[1..], key, value);
      if MatchCount(rs[1..], key, value) > 0 {
        var i :| 0 <= i < |rs[1..]| && Matches(rs[1..][i], key, value);
        assert Matches(rs[i + 1], key, value);
      }
      if exists i :: 0 <= i < |rs| && Matches(rs[i], key, value) {
        var i :| 0 <= i < |rs| && Matches(rs[i], key, value);
        if i > 0 {
          assert Matches(rs[1..][i - 1], key, value);
        }
      }
    }
  }

  function Texts(rs: seq<Record>): (ts: seq<string>)
    ensures |ts| == |rs| && forall i :: 0 <= i < |rs| ==> ts[i] == rs[i].doc.pageContent
  {
    seq(|rs|, i requires 0 <= i < |rs| => rs[i].doc.pageContent)
  }

  function Metadatas(rs: seq<Record>): (ms: seq<Metadata>)
    ensures |ms| == |rs| && forall i :: 0 <= i < |rs| ==> ms[i] == rs[i].doc.metadata
  {
    seq(|rs|, i requires 0 <= i < |rs| => rs[i].doc.metadata)
  }

  /** A Chroma collection: its records in insertion order and how many `add` calls it has served. */
  class Collection {
    var records: seq<Record>
    var addCalls: nat

    constructor (initial: seq<Record>)
      ensures records == initial && addCalls == 0
    {
      records := initial;
      addCalls := 0;
    }

    /** `collection.count()`. */
    function Count(): nat
      reads this
    {
      |records|
    }

    /**
     * One `add_documents(docs, ids=ids)` call, which LangChain's Chroma store performs as an
     * upsert: a stored record whose id comes again is replaced. Chroma requires as many ids as
     * documents, and no id twice in one call.
     */
    method AddDocuments(docs: seq<Document>, ids: Option<seq<string>>)
      requires ids.Some? ==> |ids.value| == |docs| && Distinct(ids.value)
      modifies this
      ensures records == Upsert(old(records), Tagged(docs, ids))
      ensures addCalls == old(addCalls) + 1
    {
      records := Upsert(records, Tagged(docs, ids));
      addCalls := addCalls + 1;
    }

    /** `collection.delete(where={key: value})`. */
    method DeleteWhere(key: string, value: Value)
      modifies this
      ensures records == Unmatched(old(records), key, value)
      ensures addCalls == old(addCalls)
    {
      records := Unmatched(records, key, value);
    }
  }

  /** The set of strings a list holds. */
  function Elements(ps: seq<string>): (e: set<string>)
    ensures forall p :: p in e <==> p in ps
  {
    set p | p in ps
  }

  lemma ElementsAppend(ps: seq<string>, p: string)
    ensures Elements(ps + [p]) == Elements(ps) + {p}
  {
  }

  /**
   * Saving one more path on top of the files `files0` that already existed and the writes
   * `saves0` already logged: the file set gains the path and the log gains it at the end.
   */
  lemma RecordSave(files0: set<string>, saves0: seq<string>, ps: seq<string>, p: string)
    ensures files0 + Elements(ps + [p]) == files0 + Elements(ps) + {p}
    ensures saves0 + (ps + [p]) == saves0 + ps + [p]
  {
    ElementsAppend(ps, p);
  }

  /** Concatenation of lists is associative. */
  lemma AppendAssoc<T>(a: seq<T>, b: seq<T>, c: seq<T>)
    ensures (a + b) + c == a + (b + c)
  {
  }

  /** Indexing into a concatenation of three lists. */
  lemma Concat3Index<T>(x: seq<T>, y: seq<T>, z: seq<T>, k: nat)
    requires k < |x| + |y| + |z|
    ensures (x + y + z)[k] == if k < |x| then x[k] else if k < |x| + |y| then y[k - |x|] else z[k - |x| - |y|]
  {
  }

  /** The pieces of a concatenation of four lists, recovered by slicing. */
  lemma Slice4<T>(x: seq<T>, y: seq<T>, z: seq<T>, w: seq<T>)
    ensures (x + y + z + w)[|x| + |y|..|x| + |y| + |z|] == z
    ensures (x + y + z + w)[|x|..] == y + z + w
    ensures x + y + z + w == x + (y + z + w)
  {
  }

  /** No string occurs twice. */
  predicate Distinct(ps: seq<string>) {
    forall i, j :: 0 <= i < j < |ps| ==> ps[i] != ps[j]
  }

  /** `p` lies strictly inside directory `d`. */
  predicate Under(p: string, d: string) {
    |d| < |p| && p[..|d| + 1] == d + "/"
  }

  /** The local filesystem: existing files, existing directories, and the paths images were saved to. */
  class FileSystem {
    var files: set<string>
    var dirs: set<string>
    var saves: seq<string>

    constructor (files0: set<string>, dirs0: set<string>)
      ensures files == files0 && dirs == dirs0 && saves == []
    {
      files := files0;
      dirs := dirs0;
      saves := [];
    }

    /** `os.makedirs(d, exist_ok=True)`. */
    method MakeDirs(d: string)
      modifies this
      ensures dirs == old(dirs) + {d}
      ensures files == old(files) && saves == old(saves)
    {
      dirs := dirs + {d};
    }

    /** `pix.save(p)`: writes (or overwrites) the file at `p`. */
    method Save(p: string)
      modifies this
      ensures files == old(files) + {p}
      ensures saves == old(saves) + [p]
      ensures dirs == old(dirs)
    {
      files := files + {p};
      saves := saves + [p];
    }

    /** `shutil.rmtree(d)`: removes `d` and everything under it. */
    method RemoveTree(d: string)
      modifies this
      ensures dirs == set x | x in old(dirs) && x != d && !Under(x, d)
      ensures files == set f | f in old(files) && !Under(f, d)
      ensures saves == old(saves)
    {
      dirs := set x | x in dirs && x != d && !Under(x, d);
      files := set f | f in files && !Under(f, d);
    }
  }
}
