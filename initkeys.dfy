/**
 * applyInitKeys: rebuilding the input and output dictionaries from the
 * key declarations of an initKeys command.
 */
module InitKeys {
  import opened Wrappers
  import opened Values
  import opened Params

  /** One element of an initKeys `inputs` or `outputs` array: `{key, type}`. */
  datatype Decl = Decl(key: string, typ: string)

  /** `decl.key || decl.type` */
  function DeclKey(decl: Decl): string {
    if decl.key != "" then decl.key else decl.typ
  }

  /** The position of the last declaration of key k, or -1 when k is not
      declared. */
  function LastIndex(decls: seq<Decl>, k: string): (i: int)
    ensures -1 <= i < |decls|
    ensures i >= 0 ==> DeclKey(decls[i]) == k
    ensures forall j :: i < j < |decls| ==> DeclKey(decls[j]) != k
    decreases |decls|
  {
    if decls == [] then -1
    else if DeclKey(decls[|decls| - 1]) == k then |decls| - 1
    else LastIndex(decls[..|decls| - 1], k)
  }

  /** The inputs that applyInitKeys rebuilds: `{}` then setInput(key, type,
      null) for each declaration in order. */
  function DeclareInputs(decls: seq<Decl>, parse: Value -> Option<real>): Dict
    decreases |decls|
  {
    if decls == [] then Empty
    else
      var last := decls[|decls| - 1];
      StoreInput(DeclareInputs(decls[..|decls| - 1], parse), DeclKey(last), last.typ, Null, parse)
  }

  /** The data an output keeps across initKeys: its previous data, or null. */
  function PrevData(prev: Dict, key: string): Value {
    if key in prev.entries then prev.entries[key].data else Null
  }

  /** The outputs that applyInitKeys rebuilds: `{}` then setOutput(key,
      type, previous data) for each declaration, the previous data taken
      from the dictionary as it was before the rebuild. */
  function DeclareOutputs(decls: seq<Decl>, prev: Dict, parse: Value -> Option<real>): Dict
    decreases |decls|
  {
    if decls == [] then Empty
    else
      var last := decls[|decls| - 1];
      var key := DeclKey(last);
      StoreOutput(DeclareOutputs(decls[..|decls| - 1], prev, parse), key, last.typ, PrevData(prev, key), parse)
  }

  /** The rebuilt inputs are a well-formed dictionary. */
  lemma {:induction false} DeclareInputsValid(decls: seq<Decl>, parse: Value -> Option<real>)
    ensures DeclareInputs(decls, parse).Valid()
  {
    if decls != [] {
      DeclareInputsValid(decls[..|decls| - 1], parse);
    }
  }

  /** The rebuilt inputs hold exactly the declared non-empty keys, each
      with the type of its key's last declaration and null coerced to that
      type. */
  lemma {:induction false} DeclareInputsEntries(decls: seq<Decl>, parse: Value -> Option<real>)
    ensures forall k :: k in DeclareInputs(decls, parse).entries <==> k != "" && LastIndex(decls, k) >= 0
    ensures forall k :: k in DeclareInputs(decls, parse).entries ==>
              DeclareInputs(decls, parse).entries[k] == InputEntry(decls[LastIndex(decls, k)].typ, Null, parse)
  {
    if decls != [] {
      var n := |decls| - 1;
      var init := decls[..n];
      DeclareInputsEntries(init, parse);
      var before := DeclareInputs(init, parse);
      var r := DeclareInputs(decls, parse);
      assert r == StoreInput(before, DeclKey(decls[n]), decls[n].typ, Null, parse);
      forall k ensures k != DeclKey(decls[n]) ==> LastIndex(decls, k) == LastIndex(init, k) && Get(r, k) == Get(before, k)
      {
      }
    }
  }

  /** The rebuilt outputs are a well-formed dictionary in which every media
      output holds its own key. */
  lemma {:induction false} DeclareOutputsValid(decls: seq<Decl>, prev: Dict, parse: Value -> Option<real>)
    ensures DeclareOutputs(decls, prev, parse).Valid()
    ensures MediaOutputsNameThemselves(DeclareOutputs(decls, prev, parse))
  {
    if decls != [] {
      var n := |decls| - 1;
      DeclareOutputsValid(decls[..n], prev, parse);
      StoreOutputKeepsMediaNames(DeclareOutputs(decls[..n], prev, parse), DeclKey(decls[n]), decls[n].typ,
                                 PrevData(prev, DeclKey(decls[n])), parse);
    }
  }

  /** The rebuilt outputs hold exactly the declared non-empty keys, each
      with the type of its key's last declaration, keeping its previous
      data if the key existed before and null otherwise (a media output
      holds its key instead). */
  lemma {:induction false} DeclareOutputsEntries(decls: seq<Decl>, prev: Dict, parse: Value -> Option<real>)
    ensures forall k :: k in DeclareOutputs(decls, prev, parse).entries <==> k != "" && LastIndex(decls, k) >= 0
    ensures forall k :: k in DeclareOutputs(decls, prev, parse).entries ==>
              DeclareOutputs(decls, prev, parse).entries[k]
              == OutputEntry(k, decls[LastIndex(decls, k)].typ, PrevData(prev, k), parse)
  {
    if decls != [] {
      var n := |decls| - 1;
      var init := decls[..n];
      DeclareOutputsEntries(init, prev, parse);
      var before := DeclareOutputs(init, prev, parse);
      var r := DeclareOutputs(decls, prev, parse);
      var key := DeclKey(decls[n]);
      assert r == StoreOutput(before, key, decls[n].typ, PrevData(prev, key), parse);
      forall k ensures k != key ==> LastIndex(decls, k) == LastIndex(init, k) && Get(r, k) == Get(before, k)
      {
      }
    }
  }
}
