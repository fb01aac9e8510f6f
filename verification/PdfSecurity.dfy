/** Scanning PDF bytes for name tokens of active content. */
module PdfSecurity {
  import opened Wrappers

  type Byte = x: int | 0 <= x < 256

  /** Bytes that end a name: space, tab, CR, LF, '/', '>', '[', ']', '(' and ')'. */
  predicate Delimiter(b: Byte) {
    b in {32, 9, 13, 10, 47, 62, 91, 93, 40, 41}
  }

  predicate OccursAt(data: seq<Byte>, name: seq<Byte>, i: nat) {
    i + |name| <= |data| && data[i..i + |name|] == name
  }

  /** An occurrence that ends the data or is followed by a delimiter. */
  predicate TokenAt(data: seq<Byte>, name: seq<Byte>, i: nat) {
    OccursAt(data, name, i) && (i + |name| == |data| || Delimiter(data[i + |name|]))
  }

  ghost predicate TokenPresent(data: seq<Byte>, name: seq<Byte>) {
    exists i: nat :: TokenAt(data, name, i)
  }

  /** The first occurrence at or after start. */
  function FirstAt(data: seq<Byte>, name: seq<Byte>, start: nat): (r: Option<nat>)
    ensures r.Some? ==> start <= r.value && OccursAt(data, name, r.value)
    ensures r.Some? ==> forall j :: start <= j < r.value ==> !OccursAt(data, name, j)
    ensures r.None? ==> forall j :: start <= j ==> !OccursAt(data, name, j)
    decreases |data| - start
  {
    if start + |name| > |data| then None
    else if OccursAt(data, name, start) then Some(start)
    else if start == |data| then None
    else FirstAt(data, name, start + 1)
  }

  /** The scan: after an occurrence that is no token it resumes behind that occurrence. */
  function Scan(data: seq<Byte>, name: seq<Byte>, start: nat): bool
    requires name != []
    decreases |data| - start
  {
    var found := FirstAt(data, name, start);
    if found.None? then false
    else TokenAt(data, name, found.value) || Scan(data, name, found.value + |name|)
  }

  method Find(data: seq<Byte>, name: seq<Byte>, start: nat) returns (r: Option<nat>)
    ensures r == FirstAt(data, name, start)
  {
    var i := start;
    while i + |name| <= |data|
      invariant FirstAt(data, name, i) == FirstAt(data, name, start)
      decreases |data| - i
    {
      if data[i..i + |name|] == name {
        return Some(i);
      }
      i := i + 1;
    }
    return None;
  }

  method PdfNamePresent(data: seq<Byte>, name: seq<Byte>) returns (present: bool)
    requires name != []
    ensures present == Scan(data, name, 0)
  {
    var start := 0;
    while true
      invariant Scan(data, name, start) == Scan(data, name, 0)
      decreases |data| - start
    {
      var idx := Find(data, name, start);
      if idx.None? {
        return false;
      }
      var end := idx.value + |name|;
      if end >= |data| || Delimiter(data[end]) {
        return true;
      }
      start := end;
    }
  }

  // ---- When the scan is exact --------------------------------------------------------

  /** The name's first b bytes are also its last b bytes, so two occurrences can overlap in them. */
  ghost predicate Border(name: seq<Byte>, b: nat) {
    0 < b < |name| && name[..b] == name[|name| - b..]
  }

  /** Wherever the name can overlap itself, the byte after the overlap is a delimiter. */
  ghost predicate OverlapsDelimited(name: seq<Byte>) {
    forall b: nat :: Border(name, b) ==> Delimiter(name[b])
  }

  lemma OverlapIsBorder(data: seq<Byte>, name: seq<Byte>, i: nat, j: nat)
    requires OccursAt(data, name, i) && OccursAt(data, name, j) && i < j < i + |name|
    ensures Border(name, i + |name| - j)
    ensures i + |name| < |data| && data[i + |name|] == name[i + |name| - j]
  {
  }

  /** Jumping behind a failed occurrence loses no token. */
  lemma NothingSkipped(data: seq<Byte>, name: seq<Byte>, idx: nat, i: nat)
    requires OverlapsDelimited(name) && OccursAt(data, name, idx) && !TokenAt(data, name, idx)
    requires idx <= i && OccursAt(data, name, i)
    ensures i == idx || idx + |name| <= i
  {
    if idx < i < idx + |name| {
      OverlapIsBorder(data, name, idx, i);
      assert false;
    }
  }

  ghost predicate TokenFrom(data: seq<Byte>, name: seq<Byte>, start: nat) {
    exists i: nat :: start <= i && TokenAt(data, name, i)
  }

  lemma {:induction false} ScanFrom(data: seq<Byte>, name: seq<Byte>, start: nat)
    requires name != []
    ensures Scan(data, name, start) ==> TokenFrom(data, name, start)
    ensures OverlapsDelimited(name) && TokenFrom(data, name, start) ==> Scan(data, name, start)
    decreases |data| - start
  {
    var found := FirstAt(data, name, start);
    if found.Some? && !TokenAt(data, name, found.value) {
      var end := found.value + |name|;
      ScanFrom(data, name, end);
      if OverlapsDelimited(name) && TokenFrom(data, name, start) {
        var i: nat :| start <= i && TokenAt(data, name, i);
        NothingSkipped(data, name, found.value, i);
      }
    }
  }

  /** The shortest data on which a bad overlap hides a token. */
  lemma OverlapHidesToken(name: seq<Byte>, b: nat)
    requires Border(name, b) && !Delimiter(name[b])
    ensures TokenPresent(name + name[b..], name) && !Scan(name + name[b..], name, 0)
  {
    var data := name + name[b..];
    var n := |name|;
    assert data[n - b..] == name by {
      forall k | 0 <= k < n ensures data[n - b + k] == name[k] {
        if k < b {
          assert name[..b][k] == name[n - b..][k];
        }
      }
    }
    assert TokenAt(data, name, n - b);
    assert data[..n] == name && data[n] == name[b];
    assert FirstAt(data, name, 0) == Some(0);
    assert FirstAt(data, name, n) == None;
  }

  lemma ScanIsExact(data: seq<Byte>, name: seq<Byte>)
    requires name != [] && OverlapsDelimited(name)
    ensures Scan(data, name, 0) <==> TokenPresent(data, name)
  {
    ScanFrom(data, name, 0);
    assert TokenFrom(data, name, 0) <==> TokenPresent(data, name);
  }

  /** The scan is exact on all data for exactly the names whose self-overlaps end in a delimiter. */
  lemma ScanIsExactIff(name: seq<Byte>)
    requires name != []
    ensures OverlapsDelimited(name) <==> forall data :: Scan(data, name, 0) <==> TokenPresent(data, name)
  {
    if OverlapsDelimited(name) {
      forall data ensures Scan(data, name, 0) <==> TokenPresent(data, name) {
        ScanIsExact(data, name);
      }
    } else {
      var b: nat :| Border(name, b) && !Delimiter(name[b]);
      OverlapHidesToken(name, b);
    }
  }

  /** A name whose first byte occurs nowhere else in it cannot overlap itself. */
  lemma UniqueFirstByte(name: seq<Byte>)
    requires name != [] && name[0] !in name[1..]
    ensures OverlapsDelimited(name)
  {
  }

  // ---- The blocked names -------------------------------------------------------------

  predicate Latin(s: string) {
    forall c :: c in s ==> c as int < 256
  }

  function Bytes(s: string): (bs: seq<Byte>)
    requires Latin(s)
    ensures |bs| == |s| && forall i :: 0 <= i < |s| ==> bs[i] == s[i] as int
  {
    if s == "" then []
    else
      assert s[0] in s && forall c :: c in s[1..] ==> c in s;
      [s[0] as int] + Bytes(s[1..])
  }

  /** A name that starts with its only slash. */
  predicate SlashName(s: string) {
    Latin(s) && s != "" && s[0] == '/' && forall i :: 0 < i < |s| ==> s[i] != '/'
  }

  lemma SlashNameUnique(s: string)
    requires SlashName(s)
    ensures OverlapsDelimited(Bytes(s))
  {
    UniqueFirstByte(Bytes(s));
  }

  const BLOCKED_NAMES: seq<string> := ["/JavaScript", "/JS", "/OpenAction", "/EmbeddedFile", "/Launch"]

  /** The names that block a PDF all start with their only slash. */
  lemma BlockedNamesAreSlashNames()
    ensures forall k :: 0 <= k < |BLOCKED_NAMES| ==> SlashName(BLOCKED_NAMES[k])
  {
    assert SlashName("/JavaScript");
    assert SlashName("/JS");
    assert SlashName("/OpenAction");
    assert SlashName("/EmbeddedFile");
    assert SlashName("/Launch");
  }

  ghost predicate NamePresent(data: seq<Byte>, s: string) {
    Latin(s) && TokenPresent(data, Bytes(s))
  }

  /** Which of the names occur as tokens: exactly those that are present. */
  method ScanPdfNames(data: seq<Byte>, names: seq<string>) returns (findings: set<nat>)
    requires forall k :: 0 <= k < |names| ==> SlashName(names[k])
    ensures forall k: nat :: k in findings <==> k < |names| && NamePresent(data, names[k])
  {
    findings := {};
    for k := 0 to |names|
      invariant forall j: nat :: j in findings <==> j < k && NamePresent(data, names[j])
    {
      SlashNameUnique(names[k]);
      ScanIsExact(data, Bytes(names[k]));
      var present := PdfNamePresent(data, Bytes(names[k]));
      if present {
        findings := findings + {k};
      }
    }
  }
}
