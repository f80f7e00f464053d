/** src/utils/joiValidation.ts: formatValidationErrors folds the details of
    a Joi validation error into a map from each detail's context key to its
    message; a detail without a key lands under "", and a later detail
    overwrites an earlier one with the same key. */
module JoiValidation {
  import opened Common

  /** One entry of `error.details`: its message and `context.key`. */
  datatype Detail = Detail(message: string, key: Option<string>)

  /** `currentError.context?.key || ""`. */
  function KeyOf(d: Detail): string {
    if d.key.Some? then d.key.value else ""
  }

  /** The keys the details mention. */
  function KeysOf(details: seq<Detail>): set<string> {
    set d | d in details :: KeyOf(d)
  }

  /** Reference definition: the message of the last detail filed under `k`. */
  function LastMessage(details: seq<Detail>, k: string): string
    requires k in KeysOf(details)
  {
    var last := details[|details| - 1];
    if KeyOf(last) == k then last.message
    else
      assert k in KeysOf(details[..|details| - 1]) by {
        var d :| d in details && KeyOf(d) == k;
        assert d in details[..|details| - 1];
      }
      LastMessage(details[..|details| - 1], k)
  }

  /** A detail at position i is not overridden when no later detail has its key. */
  lemma {:induction false} LastMessageAppend(details: seq<Detail>, d: Detail, k: string)
    requires k in KeysOf(details + [d])
    ensures KeyOf(d) == k ==> LastMessage(details + [d], k) == d.message
    ensures KeyOf(d) != k ==> k in KeysOf(details) && LastMessage(details + [d], k) == LastMessage(details, k)
  {
    var s := details + [d];
    assert s[..|s| - 1] == details;
    if KeyOf(d) != k {
      var x :| x in s && KeyOf(x) == k;
      assert x in details;
    }
  }

  /** The reduce step by step: `acc` is what the earlier details produced. */
  function Fold(acc: map<string, string>, details: seq<Detail>): (m: map<string, string>)
    ensures m.Keys == acc.Keys + KeysOf(details)
    ensures forall k :: k in m && k !in KeysOf(details) ==> m[k] == acc[k]
    decreases |details|
  {
    if details == [] then acc
    else
      var d := details[0];
      assert KeysOf(details) == {KeyOf(d)} + KeysOf(details[1..]) by {
        assert forall x :: x in details <==> x == d || x in details[1..];
      }
      Fold(acc[KeyOf(d) := d.message], details[1..])
  }

  function FormatValidationErrors(details: seq<Detail>): map<string, string> {
    Fold(map[], details)
  }

  /** Folding the details of `prefix + rest` is folding `rest` onto the fold of `prefix`. */
  lemma {:induction false} FoldSplit(acc: map<string, string>, prefix: seq<Detail>, rest: seq<Detail>)
    ensures Fold(acc, prefix + rest) == Fold(Fold(acc, prefix), rest)
    decreases |prefix|
  {
    if prefix != [] {
      var d := prefix[0];
      var acc' := acc[KeyOf(d) := d.message];
      assert (prefix + rest)[0] == d;
      assert (prefix + rest)[1..] == prefix[1..] + rest;
      assert Fold(acc, prefix + rest) == Fold(acc', prefix[1..] + rest);
      assert Fold(acc, prefix) == Fold(acc', prefix[1..]);
      FoldSplit(acc', prefix[1..], rest);
    } else {
      assert prefix + rest == rest;
    }
  }

  /** Filing one more detail sets its key to its message. */
  lemma FormatAppend(init: seq<Detail>, d: Detail)
    ensures FormatValidationErrors(init + [d]) == FormatValidationErrors(init)[KeyOf(d) := d.message]
  {
    FoldSplit(map[], init, [d]);
    assert [d][1..] == [];
  }

  lemma KeysOfAppend(init: seq<Detail>, d: Detail)
    ensures KeysOf(init + [d]) == KeysOf(init) + {KeyOf(d)}
  {
    assert forall x :: x in init + [d] <==> x in init || x == d;
  }

  /** The result has one entry per distinct key, holding the message of the
      last detail with that key; no details give the empty map. */
  lemma {:induction false} FormatValidationErrorsSpec(details: seq<Detail>)
    ensures FormatValidationErrors(details).Keys == KeysOf(details)
    ensures forall k :: k in KeysOf(details) ==> FormatValidationErrors(details)[k] == LastMessage(details, k)
    ensures details == [] ==> FormatValidationErrors(details) == map[]
    decreases |details|
  {
    if details != [] {
      var init := details[..|details| - 1];
      var d := details[|details| - 1];
      assert details == init + [d];
      FormatValidationErrorsSpec(init);
      FormatAppend(init, d);
      KeysOfAppend(init, d);
      forall k | k in KeysOf(details)
        ensures FormatValidationErrors(details)[k] == LastMessage(details, k)
      {
        LastMessageAppend(init, d, k);
      }
    }
  }
}
