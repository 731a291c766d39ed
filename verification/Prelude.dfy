/** Small vocabulary shared by the other modules. */
module Prelude {

  datatype Option<+T> = None | Some(value: T)

  datatype Result<+T, +E> = Ok(value: T) | Err(error: E)

  /** ECMAScript WhiteSpace and LineTerminator: what `trim` removes and what `\s` matches. */
  predicate IsSpace(c: char) {
    var u := c as int;
    || 0x09 <= u <= 0x0D || u == 0x20 || u == 0xA0 || u == 0x1680
    || 0x2000 <= u <= 0x200A || u == 0x2028 || u == 0x2029 || u == 0x202F
    || u == 0x205F || u == 0x3000 || u == 0xFEFF
  }

  lemma SpaceCharacters(c: char)
    ensures IsSpace(c) <==> c as int in {9, 10, 11, 12, 13, 32, 160, 5760, 8192, 8193, 8194, 8195, 8196, 8197, 8198, 8199, 8200,
                                         8201, 8202, 8232, 8233, 8239, 8287, 12288, 65279}
  {
  }

  /** The first position from i on that holds no white space, or the end. */
  function SkipSpace(s: string, i: nat): (k: nat)
    requires i <= |s|
    ensures i <= k <= |s| && (k < |s| ==> !IsSpace(s[k]))
    decreases |s| - i
  {
    if i < |s| && IsSpace(s[i]) then SkipSpace(s, i + 1) else i
  }

  /** The last position down to i that is not behind white space, or i. */
  function DropSpace(s: string, i: nat, j: nat): (k: nat)
    requires i <= j <= |s|
    ensures i <= k <= j && (k > i ==> !IsSpace(s[k - 1]))
    decreases j
  {
    if j > i && IsSpace(s[j - 1]) then DropSpace(s, i, j - 1) else j
  }

  function Trim(s: string): string {
    var i := SkipSpace(s, 0);
    s[i..DropSpace(s, i, |s|)]
  }

  /** Nothing but white space: what trims to the empty text. */
  predicate Blank(s: string) {
    SkipSpace(s, 0) == |s|
  }

  predicate Trimmed(s: string) {
    s == "" || (!IsSpace(s[0]) && !IsSpace(s[|s| - 1]))
  }

  lemma TrimIsTrimmed(s: string)
    ensures Trimmed(Trim(s))
  {
  }

  /** Trimming cuts white space off both ends, and nothing else. */
  lemma TrimCuts(s: string) returns (left: string, right: string)
    ensures s == left + Trim(s) + right
    ensures (forall i :: 0 <= i < |left| ==> IsSpace(left[i])) && (forall i :: 0 <= i < |right| ==> IsSpace(right[i]))
  {
    var i := SkipSpace(s, 0);
    var j := DropSpace(s, i, |s|);
    SkippedIsSpace(s, 0);
    DroppedIsSpace(s, i, |s|);
    left, right := s[..i], s[j..];
  }

  lemma {:induction false} SkippedIsSpace(s: string, i: nat)
    requires i <= |s|
    ensures forall k :: i <= k < SkipSpace(s, i) ==> IsSpace(s[k])
    decreases |s| - i
  {
    if i < |s| && IsSpace(s[i]) { SkippedIsSpace(s, i + 1); }
  }

  lemma {:induction false} DroppedIsSpace(s: string, i: nat, j: nat)
    requires i <= j <= |s|
    ensures forall k :: DropSpace(s, i, j) <= k < j ==> IsSpace(s[k])
    decreases j
  {
    if j > i && IsSpace(s[j - 1]) { DroppedIsSpace(s, i, j - 1); }
  }

  lemma TrimFixes(s: string)
    requires Trimmed(s)
    ensures Trim(s) == s
  {
  }

  ghost predicate NoDup<T>(s: seq<T>) {
    forall i, j :: 0 <= i < j < |s| ==> s[i] != s[j]
  }
}
