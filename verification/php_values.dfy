/**
 PHP values as the two filters see them: the request state, attribute lists and
 configuration arrays are PHP arrays, i.e. ordered maps from integer or string
 keys to values. Reads, `isset`, truthiness, string conversion and the nested
 assignment `$a[k1][k2][k3] = v` are modelled after PHP 7.
 */
module PhpValues {
  import opened Wrappers
  import opened Decimal

  datatype Key = IntKey(n: int) | StrKey(s: string)

  /** A PHP value. Floats and objects are not modelled. */
  datatype Value =
    | Null
    | Bool(b: bool)
    | Int(n: int)
    | Str(s: string)
    | Arr(entries: seq<(Key, Value)>)

  /** The entries of a PHP array, in insertion order. */
  type Entries = seq<(Key, Value)>

  const PhpIntMax: int := 0x7fff_ffff_ffff_ffff
  const PhpIntMin: int := -0x8000_0000_0000_0000

  // ---------------------------------------------------------------------------
  // Array keys

  /** The key PHP stores for the string `s`: a canonical decimal integer in the
      64-bit range becomes an integer key, any other string stays a string key
      ("-0", "007" and "+1" stay strings). */
  function ArrayKey(s: string): (k: Key)
    ensures k.StrKey? ==> k.s == s
  {
    if Canonical(s) && ParseDigits(s) <= PhpIntMax then
      IntKey(ParseDigits(s))
    else if |s| >= 2 && s[0] == '-' && Canonical(s[1..]) && s[1..] != "0"
      && ParseDigits(s[1..]) <= -PhpIntMin then
      IntKey(-(ParseDigits(s[1..]) as int))
    else
      StrKey(s)
  }

  /** The decimal spelling of every 64-bit integer is stored as that integer. */
  lemma ArrayKeyOfDecimal(i: int)
    requires PhpIntMin <= i <= PhpIntMax
    ensures ArrayKey(IntToString(i)) == IntKey(i)
  {
    if i >= 0 {
      ParsePrinted(i);
    } else {
      var s := IntToString(i);
      assert s[1..] == NatToString(-i);
      ParsePrinted(-i);
      assert !IsDigit(s[0]);
    }
  }

  /** A string is stored as an integer key only when it is that integer's own
      decimal spelling, and the integer is in the 64-bit range. */
  lemma ArrayKeyIntegerSpelling(s: string)
    ensures ArrayKey(s).IntKey? ==>
      PhpIntMin <= ArrayKey(s).n <= PhpIntMax && IntToString(ArrayKey(s).n) == s
  {
    if Canonical(s) && ParseDigits(s) <= PhpIntMax {
      PrintParsed(s);
    } else if |s| >= 2 && s[0] == '-' && Canonical(s[1..]) && s[1..] != "0"
      && ParseDigits(s[1..]) <= -PhpIntMin {
      PrintParsed(s[1..]);
      assert ParseDigits(s[1..]) != 0;
      assert s == "-" + s[1..];
    }
  }

  /** A string starting with neither a digit nor a minus sign is a string key. */
  lemma WordKey(s: string)
    requires |s| > 0 && !IsDigit(s[0]) && s[0] != '-'
    ensures ArrayKey(s) == StrKey(s)
  {
  }

  /** The key a value stands for when used as an array offset: null is "",
      booleans are 0 and 1, strings go through ArrayKey; an array is an
      illegal offset. */
  function KeyOf(v: Value): Option<Key>
  {
    match v
    case Null => Some(StrKey(""))
    case Bool(b) => Some(IntKey(if b then 1 else 0))
    case Int(n) => Some(IntKey(n))
    case Str(s) => Some(ArrayKey(s))
    case Arr(_) => None
  }

  // ---------------------------------------------------------------------------
  // Conversions

  /** PHP's boolean conversion, as in `if ($x)`. */
  predicate Truthy(v: Value)
    ensures !Truthy(v) <==> v in {Null, Bool(false), Int(0), Str(""), Str("0"), Arr([])}
  {
    match v
    case Null => false
    case Bool(b) => b
    case Int(n) => n != 0
    case Str(s) => s != "" && s != "0"
    case Arr(es) => |es| > 0
  }

  /** The string a value becomes when passed where a string is expected, as the
      subject of `preg_match`; an array is refused (the call warns and fails). */
  function ToSubject(v: Value): Option<string>
  {
    match v
    case Null => Some("")
    case Bool(b) => Some(if b then "1" else "")
    case Int(n) => Some(IntToString(n))
    case Str(s) => Some(s)
    case Arr(_) => None
  }

  // ---------------------------------------------------------------------------
  // Entries of one array

  ghost predicate HasKey(es: Entries, k: Key)
  {
    exists i :: 0 <= i < |es| && es[i].0 == k
  }

  ghost predicate DistinctKeys(es: Entries)
  {
    forall i, j :: 0 <= i < j < |es| ==> es[i].0 != es[j].0
  }

  /** The value stored under `k`: that of the first entry with that key. */
  function Get(es: Entries, k: Key): (r: Option<Value>)
    ensures r.Some? <==> HasKey(es, k)
    ensures r.Some? ==> exists i :: 0 <= i < |es| && es[i] == (k, r.value)
  {
    if |es| == 0 then None
    else if es[0].0 == k then Some(es[0].1)
    else
      var r := Get(es[1..], k);
      assert forall i :: 0 < i < |es| ==> es[i] == es[1..][i - 1];
      r
  }

  /** `$a[k] = v`: overwrite the entry in place, or append a new one. */
  function Put(es: Entries, k: Key, v: Value): (r: Entries)
    ensures Get(r, k) == Some(v)
    ensures forall k' :: k' != k ==> Get(r, k') == Get(es, k')
  {
    if |es| == 0 then [(k, v)]
    else if es[0].0 == k then [(k, v)] + es[1..]
    else [es[0]] + Put(es[1..], k, v)
  }

  /** Assignment keeps every existing entry in its place and appends a new key
      at the end. */
  lemma {:induction false} PutShape(es: Entries, k: Key, v: Value)
    ensures |Put(es, k, v)| == if HasKey(es, k) then |es| else |es| + 1
    ensures forall i :: 0 <= i < |es| ==> Put(es, k, v)[i].0 == es[i].0
    ensures !HasKey(es, k) ==> Put(es, k, v)[|es|] == (k, v)
  {
    if |es| > 0 && es[0].0 != k {
      PutShape(es[1..], k, v);
      assert HasKey(es, k) <==> HasKey(es[1..], k) by {
        if HasKey(es, k) {
          var i :| 0 <= i < |es| && es[i].0 == k;
          assert es[1..][i - 1].0 == k;
        }
        if HasKey(es[1..], k) {
          var i :| 0 <= i < |es[1..]| && es[1..][i].0 == k;
          assert es[i + 1].0 == k;
        }
      }
    }
  }

  /** Assignment keeps the keys of an array distinct. */
  lemma PutKeepsKeysDistinct(es: Entries, k: Key, v: Value)
    requires DistinctKeys(es)
    ensures DistinctKeys(Put(es, k, v))
  {
    PutShape(es, k, v);
  }

  // ---------------------------------------------------------------------------
  // Nested reads

  /** One offset step `$v[k]`: into an array, or one character of a string
      (negative offsets count from the end); anything else has no offset. */
  function Step(v: Value, k: Key): Option<Value>
  {
    match v
    case Arr(es) => Get(es, k)
    case Str(s) =>
      if k.IntKey? && -|s| <= k.n < |s| then
        Some(Str([s[if k.n < 0 then |s| + k.n else k.n]]))
      else None
    case _ => None
  }

  /** `$v[p0][p1]...`, or None when some step has nothing there. */
  function Lookup(v: Value, path: seq<Key>): Option<Value>
    decreases |path|
  {
    if |path| == 0 then Some(v)
    else
      match Step(v, path[0])
      case None => None
      case Some(c) => Lookup(c, path[1..])
  }

  /** A plain read: a missing offset reads as null (PHP raises a notice). */
  function Read(v: Value, path: seq<Key>): Value
  {
    Lookup(v, path).GetOr(Null)
  }

  /** `isset($v[p0][p1]...)`: the offset exists and does not hold null. */
  predicate IsSet(v: Value, path: seq<Key>)
  {
    Lookup(v, path).Some? && Lookup(v, path).value != Null
  }

  // ---------------------------------------------------------------------------
  // Nested assignment

  datatype WriteError = ScalarOnPath

  /** A value that PHP silently replaces by a fresh array when it is written
      through (null and false); an array is written into as it is. */
  function Container(cur: Option<Value>): Option<Entries>
  {
    match cur
    case None => Some([])
    case Some(Null) => Some([])
    case Some(Bool(false)) => Some([])
    case Some(Arr(es)) => Some(es)
    case Some(_) => None
  }

  /** `$a[p0][p1]...[pn] = v` on the array with entries `es`. Every value met on
      the way to the last offset must be an array, null, false or missing; any
      other scalar stops the write. */
  function SetIn(es: Entries, path: seq<Key>, v: Value): (r: Result<Entries, WriteError>)
    requires |path| > 0
    ensures |path| > 1 && Container(Get(es, path[0])).None? ==> r.Failure?
    ensures r.Success? ==> HasKey(r.value, path[0])
    ensures r.Success? ==> forall k :: k != path[0] ==> Get(r.value, k) == Get(es, k)
    decreases |path|
  {
    if |path| == 1 then Success(Put(es, path[0], v))
    else
      match Container(Get(es, path[0]))
      case None => Failure(ScalarOnPath)
      case Some(inner) =>
        match SetIn(inner, path[1..], v)
        case Failure(e) => Failure(e)
        case Success(inner') => Success(Put(es, path[0], Arr(inner')))
  }

  ghost predicate IsPrefix(a: seq<Key>, b: seq<Key>)
  {
    |a| <= |b| && b[..|a|] == a
  }

  lemma PrefixTail(a: seq<Key>, b: seq<Key>)
    requires |a| > 0 && |b| > 0 && a[0] == b[0]
    ensures IsPrefix(a[1..], b[1..]) <==> IsPrefix(a, b)
  {
    if |a| <= |b| {
      assert b[..|a|] == [b[0]] + b[1..][..|a| - 1];
      assert a == [a[0]] + a[1..];
    }
  }

  /** Some value strictly on the way to the end of `path` is a scalar that
      cannot be written through. */
  ghost predicate PathBlocked(es: Entries, path: seq<Key>)
  {
    exists i :: 1 <= i < |path| && Lookup(Arr(es), path[..i]).Some?
      && Container(Lookup(Arr(es), path[..i])).None?
  }

  /** After a successful write the path holds the written value. */
  lemma {:induction false} SetInStores(es: Entries, path: seq<Key>, v: Value)
    requires |path| > 0 && SetIn(es, path, v).Success?
    ensures Lookup(Arr(SetIn(es, path, v).value), path) == Some(v)
    decreases |path|
  {
    if |path| > 1 {
      var inner := Container(Get(es, path[0])).value;
      SetInStores(inner, path[1..], v);
    }
  }

  /** A write changes nothing at a path that neither leads to nor extends the
      written path. */
  lemma {:induction false} SetInFrame(es: Entries, path: seq<Key>, v: Value, p: seq<Key>)
    requires |path| > 0 && SetIn(es, path, v).Success?
    requires !IsPrefix(p, path) && !IsPrefix(path, p)
    ensures Lookup(Arr(SetIn(es, path, v).value), p) == Lookup(Arr(es), p)
    decreases |path|
  {
    var r := SetIn(es, path, v).value;
    if p[0] != path[0] {
      assert Get(r, p[0]) == Get(es, p[0]);
    } else {
      assert p[..1] == path[..1];
      var inner := Container(Get(es, path[0])).value;
      PrefixTail(p, path);
      PrefixTail(path, p);
      SetInFrame(inner, path[1..], v, p[1..]);
      if Get(es, path[0]).None? || Get(es, path[0]).value.Null? || Get(es, path[0]).value == Bool(false) {
        assert Lookup(Arr(inner), p[1..]) == None;
      }
    }
  }

  /** The frame property for every untouched path at once. */
  lemma SetInFrameAll(es: Entries, path: seq<Key>, v: Value)
    requires |path| > 0 && SetIn(es, path, v).Success?
    ensures forall p :: !IsPrefix(p, path) && !IsPrefix(path, p) ==>
      Lookup(Arr(SetIn(es, path, v).value), p) == Lookup(Arr(es), p)
  {
    forall p | !IsPrefix(p, path) && !IsPrefix(path, p)
      ensures Lookup(Arr(SetIn(es, path, v).value), p) == Lookup(Arr(es), p)
    {
      SetInFrame(es, path, v, p);
    }
  }

  /** The write fails exactly when a scalar blocks the path. */
  lemma {:induction false} SetInFails(es: Entries, path: seq<Key>, v: Value)
    requires |path| > 0
    ensures SetIn(es, path, v).Failure? <==> PathBlocked(es, path)
    decreases |path|
  {
    if |path| > 1 {
      var k := path[0];
      assert path[..1] == [k];
      assert Lookup(Arr(es), path[..1]) == Get(es, k);
      match Container(Get(es, k))
      case None =>
      case Some(inner) =>
        SetInFails(inner, path[1..], v);
        forall i | 2 <= i < |path|
          ensures Lookup(Arr(es), path[..i]) == Lookup(Arr(inner), path[1..][..i - 1])
        {
          assert path[..i][0] == k;
          assert path[..i][1..] == path[1..][..i - 1];
          if Get(es, k).Some? && Get(es, k).value.Arr? {
          } else {
            assert Lookup(Arr(inner), path[1..][..i - 1]) == None;
          }
        }
        if PathBlocked(es, path) {
          var i :| 1 <= i < |path| && Lookup(Arr(es), path[..i]).Some?
            && Container(Lookup(Arr(es), path[..i])).None?;
          assert i >= 2;
          assert 1 <= i - 1 < |path[1..]|;
        }
        if PathBlocked(inner, path[1..]) {
          var j :| 1 <= j < |path[1..]| && Lookup(Arr(inner), path[1..][..j]).Some?
            && Container(Lookup(Arr(inner), path[1..][..j])).None?;
          assert Lookup(Arr(es), path[..j + 1]) == Lookup(Arr(inner), path[1..][..j]);
        }
    }
  }
}
