/** Coordination paths of the lock service: the namespace root joined with
    the decimal form of a lockable's id (`ZKPaths.makePath(getLockPath(),
    String.valueOf(id))`), and the way back from a path to the id. */
module LockPaths {

  /** Java's `int`, the type of `Lockable.getId()`. */
  type Int32 = x: int | -0x8000_0000 <= x < 0x8000_0000

  datatype Option<T> = None | Some(value: T)

  /** The namespace of the file-locking service (`FileLockingService.LOCK_PATH`). */
  const FileLockRoot: string := "/myApp/files"

  predicate IsDigit(c: char) { '0' <= c <= '9' }

  predicate AllDigits(s: string) { forall i :: 0 <= i < |s| ==> IsDigit(s[i]) }

  function DigitChar(d: nat): (c: char)
    requires d < 10
    ensures IsDigit(c) && c as int - '0' as int == d
  {
    ('0' as int + d) as char
  }

  /** The decimal digits of `n`, most significant first, with no leading zero. */
  function NatDigits(n: nat): (s: string)
    ensures 1 <= |s| && AllDigits(s)
    ensures s[0] == '0' ==> n == 0
    decreases n
  {
    if n < 10 then [DigitChar(n)] else NatDigits(n / 10) + [DigitChar(n % 10)]
  }

  /** `String.valueOf(int)`: an optional minus sign followed by the digits of the magnitude. */
  function DecimalString(i: int): (s: string)
    ensures 1 <= |s|
    ensures s[0] == '-' <==> i < 0
  {
    if i < 0 then "-" + NatDigits(-i) else NatDigits(i)
  }

  /** The value of a string of decimal digits. */
  function DigitsValue(s: string): nat
    requires AllDigits(s)
  {
    if s == [] then 0 else DigitsValue(s[..|s| - 1]) * 10 + (s[|s| - 1] as int - '0' as int)
  }

  /** Reads a decimal string back: an optional '-' and at least one digit. */
  function ParseDecimal(s: string): Option<int>
  {
    if 1 < |s| && s[0] == '-' && AllDigits(s[1..]) then
      var magnitude: int := DigitsValue(s[1..]);
      Some(-magnitude)
    else if 0 < |s| && AllDigits(s) then Some(DigitsValue(s) as int)
    else None
  }

  lemma {:induction false} NatDigitsValue(n: nat)
    ensures DigitsValue(NatDigits(n)) == n
    decreases n
  {
    if n >= 10 {
      NatDigitsValue(n / 10);
      var s := NatDigits(n);
      assert s[..|s| - 1] == NatDigits(n / 10);
    }
  }

  /** Parsing undoes `String.valueOf`, for every id. */
  lemma DecimalRoundTrip(i: int)
    ensures ParseDecimal(DecimalString(i)) == Some(i)
  {
    var s := DecimalString(i);
    if i < 0 {
      var digits := NatDigits(-i);
      NatDigitsValue(-i);
      assert s[1..] == digits;
      assert DigitsValue(s[1..]) == -i;
    } else {
      NatDigitsValue(i);
      assert AllDigits(s) && DigitsValue(s) == i;
    }
  }

  /** Neither digits nor a minus sign are '/': a decimal id is a single path segment. */
  lemma DecimalStringHasNoSlash(i: int)
    ensures forall j :: 0 <= j < |DecimalString(i)| ==> DecimalString(i)[j] != '/'
  {
    if i < 0 {
      var digits := NatDigits(-i);
      assert forall j :: 1 <= j < |DecimalString(i)| ==> DecimalString(i)[j] == digits[j - 1];
    }
  }

  /** A lock's node in the coordination service: the child named by the
      decimal form of `id` under the namespace `root`. */
  datatype LockNode = LockNode(root: string, id: int)

  /** The path of a lock node. For a root that starts with '/' and has no
      trailing '/' (such as FileLockRoot) this is what
      `ZKPaths.makePath(root, String.valueOf(id))` builds; for other roots
      `makePath` would also add or drop slashes, which is not modelled. */
  function LockPath(node: LockNode): string
  {
    node.root + "/" + DecimalString(node.id)
  }

  /** The index of the last '/' in `s`, or -1 when there is none. */
  function LastSlash(s: string): (k: int)
    ensures -1 <= k < |s|
    ensures 0 <= k ==> s[k] == '/'
    ensures forall j :: k < j < |s| ==> s[j] != '/'
  {
    if s == [] then -1
    else if s[|s| - 1] == '/' then |s| - 1
    else LastSlash(s[..|s| - 1])
  }

  /** Reads a lock path back: everything before the last '/' is the root,
      the decimal after it the id. */
  function NodeOfPath(path: string): Option<LockNode>
  {
    var k := LastSlash(path);
    if k < 0 then None
    else match ParseDecimal(path[k + 1..])
      case Some(id) => Some(LockNode(path[..k], id))
      case None => None
  }

  /** Every lock path reads back as the node it was made from. */
  lemma LockPathRoundTrip(node: LockNode)
    ensures NodeOfPath(LockPath(node)) == Some(node)
  {
    var path, n := LockPath(node), |node.root|;
    DecimalStringHasNoSlash(node.id);
    assert path[n] == '/';
    forall j | n < j < |path|
      ensures path[j] != '/'
    {
      assert path[j] == DecimalString(node.id)[j - n - 1];
    }
    assert LastSlash(path) == n;
    assert path[..n] == node.root;
    assert path[n + 1..] == DecimalString(node.id);
    DecimalRoundTrip(node.id);
  }

  /** Two lock nodes share a path exactly when they are the same node: no two
      ids collide, under one root or across roots. */
  lemma LockPathInjective(a: LockNode, b: LockNode)
    ensures LockPath(a) == LockPath(b) <==> a == b
  {
    LockPathRoundTrip(a);
    LockPathRoundTrip(b);
  }

  /** The path the file-locking service uses for the lock on id 5. */
  lemma FileLockPathOfFive()
    ensures LockPath(LockNode(FileLockRoot, 5)) == "/myApp/files/5"
  {
  }
}
