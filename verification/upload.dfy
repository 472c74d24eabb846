/** The disk-storage settings of the upload middleware: where uploaded files go and the name
    each one is stored under. The clock and the random number are parameters. */
module Upload {
  import opened Base
  import Strs

  /** The directory every upload is written to. */
  const Destination := "./public/images"

  /** The original name's extension: from its last `.` to the end, or empty when the name
      has no `.` (that is, when `originalname.split(".")` has a single part). */
  function Extension(name: string): (r: string)
    ensures r == "" <==> '.' !in name
    ensures r != "" ==> r[0] == '.' && '.' !in r[1..]
    ensures Strs.EndsWith(name, r)
  {
    match Strs.LastIndexOf(name, '.')
    case None => ""
    case Some(i) => name[i..]
  }

  /** The original name lower-cased, with every space replaced by `-`. */
  function Normalised(name: string): (r: string)
    ensures |r| == |name|
    ensures ' ' !in r
    ensures forall i :: 0 <= i < |name| ==>
              r[i] == (if name[i] == ' ' then '-' else Strs.LowerChar(name[i]))
  {
    var lower := Strs.ToLower(name);
    Strs.ReplaceChar(lower, ' ', '-')
  }

  /** The stored name's stem: the normalised name up to (not including) its first `.`. */
  function BaseName(name: string): (r: string)
    ensures ' ' !in r && '.' !in r
    ensures |r| <= |name|
    ensures forall i :: 0 <= i < |r| ==> r[i] == (if name[i] == ' ' then '-' else Strs.LowerChar(name[i]))
    ensures |r| < |name| ==> name[|r|] == '.'
    ensures '.' !in name ==> |r| == |name|
  {
    var n := Normalised(name);
    var r := Strs.BeforeFirst(n, '.');
    assert forall i :: 0 <= i < |name| ==> (n[i] == '.' <==> name[i] == '.');
    r
  }

  /** The name a file is stored under: stem, the upload time in milliseconds, a random
      number in `[0, 100000]` (`Math.ceil(Math.random() * 1e5)`), then the extension. */
  function StoredName(name: string, timestamp: nat, random: nat): (r: string)
    requires random <= 100000
    ensures BaseName(name) <= r
    ensures Strs.EndsWith(r, Extension(name))
    ensures |BaseName(name)| + 2 <= |r| - |Extension(name)|
    ensures forall i :: |BaseName(name)| <= i < |r| - |Extension(name)| ==> Strs.IsDigit(r[i])
    ensures r[|BaseName(name)|..|r| - |Extension(name)|] == Strs.NatToString(timestamp) + Strs.NatToString(random)
  {
    var b := BaseName(name);
    var time := Strs.NatToString(timestamp);
    var rand := Strs.NatToString(random);
    var digits := time + rand;
    AllDigits(time, rand);
    var e := Extension(name);
    Parts(b, digits, e);
    b + digits + e
  }

  /** Two strings of digits make one string of digits. */
  lemma AllDigits(x: string, y: string)
    requires forall i :: 0 <= i < |x| ==> Strs.IsDigit(x[i])
    requires forall i :: 0 <= i < |y| ==> Strs.IsDigit(y[i])
    ensures forall i :: 0 <= i < |x + y| ==> Strs.IsDigit((x + y)[i])
  {
  }

  /** Where the three parts of a concatenation sit in it. */
  lemma Parts(b: string, d: string, e: string)
    ensures (b + d + e)[..|b|] == b
    ensures (b + d + e)[|b| + |d|..] == e
    ensures (b + d + e)[|b|..|b| + |d|] == d
    ensures forall i :: |b| <= i < |b| + |d| ==> (b + d + e)[i] == d[i - |b|]
  {
    var r := b + d + e;
    assert r == b + (d + e);
  }

  /** Appending an extension to a name without `.` gives a name whose extension is that
      one. */
  lemma ExtensionAfterPlainStem(p: string, e: string)
    requires '.' !in p
    requires e == "" || (e[0] == '.' && '.' !in e[1..])
    ensures Extension(p + e) == e
  {
    var r := p + e;
    if e == "" {
      assert r == p;
    } else {
      var j := |p|;
      assert r[j] == '.';
      assert r[j] in r;
      var i := Strs.LastIndexOf(r, '.').value;
      assert forall k :: i < k < |r| ==> r[k] != '.' by {
        forall k | i < k < |r| ensures r[k] != '.' {
          assert r[k] == r[i + 1..][k - i - 1];
        }
      }
      assert forall k :: j < k < |r| ==> r[k] != '.' by {
        forall k | j < k < |r| ensures r[k] != '.' {
          assert r[k] == e[1..][k - j - 1];
        }
      }
      assert i == j;
      assert r[j..] == e;
    }
  }

  /** The stored file keeps the original's extension: reading the extension of the stored
      name gives back the extension of the uploaded name. */
  lemma StoredNameKeepsExtension(name: string, timestamp: nat, random: nat)
    requires random <= 100000
    ensures Extension(StoredName(name, timestamp, random)) == Extension(name)
  {
    var b := BaseName(name);
    var digits := Strs.NatToString(timestamp) + Strs.NatToString(random);
    var e := Extension(name);
    Parts(b, digits, e);
    var p := b + digits;
    assert '.' !in p by {
      forall i | 0 <= i < |p| ensures p[i] != '.' {
        if i < |b| {
          assert p[i] == b[i];
        } else {
          assert p[i] == (b + digits + e)[i];
          assert Strs.IsDigit(p[i]);
        }
      }
    }
    assert StoredName(name, timestamp, random) == p + e;
    ExtensionAfterPlainStem(p, e);
  }
}
