/** Small vocabulary shared by every module: optional values, document ids,
    the ObjectId format check of src/utils/mongoose.ts, JavaScript's notion of
    white space (String.prototype.trim and the regular-expression class \s),
    and the way a store call is made to fail (the error branch of
    src/utils/asyncWrapper.ts). */
module Common {

  datatype Option<+T> = None | Some(value: T)

  /** Document ids: the hexadecimal text of a MongoDB ObjectId. */
  type Id = string

  predicate IsHexDigit(c: char) {
    ('0' <= c <= '9') || ('a' <= c <= 'f') || ('A' <= c <= 'F')
  }

  /** isObjectIdValid (src/utils/mongoose.ts): the id is the 24-digit
      hexadecimal form of an ObjectId. */
  predicate IsObjectIdValid(id: string) {
    |id| == 24 && forall i :: 0 <= i < |id| ==> IsHexDigit(id[i])
  }

  /** The characters that JavaScript's trim() removes and that \s matches:
      WhiteSpace and LineTerminator of the ECMAScript grammar. */
  predicate IsSpace(c: char) {
    c == ' ' || c == '\t' || c == '\n' || c == '\r' || c == '\U{000B}' || c == '\U{000C}'
    || c == '\U{00A0}' || c == '\U{1680}' || ('\U{2000}' <= c <= '\U{200A}')
    || c == '\U{2028}' || c == '\U{2029}' || c == '\U{202F}' || c == '\U{205F}'
    || c == '\U{3000}' || c == '\U{FEFF}'
  }

  function TrimStart(s: string): (r: string)
    ensures |r| <= |s| && r == s[|s| - |r|..]
    ensures r == [] || !IsSpace(r[0])
    ensures forall k :: 0 <= k < |s| - |r| ==> IsSpace(s[k])
  {
    if s != [] && IsSpace(s[0]) then TrimStart(s[1..]) else s
  }

  function TrimEnd(s: string): (r: string)
    ensures |r| <= |s| && r == s[..|r|]
    ensures r == [] || !IsSpace(r[|r| - 1])
    ensures forall k :: |r| <= k < |s| ==> IsSpace(s[k])
  {
    if s != [] && IsSpace(s[|s| - 1]) then TrimEnd(s[..|s| - 1]) else s
  }

  /** String.prototype.trim, which mongoose applies to a path declared with
      `trim: true` whenever the path is set: no white space is left at either
      end, and a string without surrounding white space is kept as it is. */
  function Trim(s: string): (r: string)
    ensures |r| <= |s|
    ensures r == [] || (!IsSpace(r[0]) && !IsSpace(r[|r| - 1]))
    ensures (s == [] || (!IsSpace(s[0]) && !IsSpace(s[|s| - 1]))) ==> r == s
  {
    var a := TrimStart(s);
    var r := TrimEnd(a);
    assert r != [] ==> r[0] == a[0];
    r
  }

  /** Trim removes white space only: its result is a slice of `s` with
      nothing but white space before and after it. */
  lemma TrimIsSlice(s: string)
    ensures exists i, j ::
      && 0 <= i <= j <= |s| && Trim(s) == s[i..j]
      && (forall k :: 0 <= k < i ==> IsSpace(s[k]))
      && (forall k :: j <= k < |s| ==> IsSpace(s[k]))
  {
    var a := TrimStart(s);
    TrimmedSlice(s, a, TrimEnd(a));
  }

  /** A prefix `r` of a suffix `a` of `s` is the slice of `s` between them,
      and the characters of `s` after it are those of `a` after `r`. */
  lemma TrimmedSlice(s: string, a: string, r: string)
    requires |a| <= |s| && a == s[|s| - |a|..] && |r| <= |a| && r == a[..|r|]
    requires forall k :: |r| <= k < |a| ==> IsSpace(a[k])
    ensures r == s[|s| - |a|..|s| - |a| + |r|]
    ensures forall k :: |s| - |a| + |r| <= k < |s| ==> IsSpace(s[k])
  {
    var i := |s| - |a|;
    forall k | i + |r| <= k < |s| ensures IsSpace(s[k]) {
      assert s[k] == a[k - i];
    }
  }

  predicate StartsWith(s: string, prefix: string) {
    |prefix| <= |s| && s[..|prefix|] == prefix
  }

  /** A store call that goes wrong: every handler numbers its store calls
      0, 1, 2, ... in the order the source awaits them, and `FailsAt(n)`
      makes call n reject (asyncWrapper then yields its error branch). */
  datatype StoreFault = Healthy | FailsAt(call: nat)

  predicate Throws(fault: StoreFault, call: nat) {
    fault == FailsAt(call)
  }
}
