/** The Git push endpoint: LFS pointer recognition and parsing, and the
    count of plain blobs and pointer blobs in a received pack. */
module GitPush {
  import opened Common
  import opened PyText
  import opened Pack

  /** The first line of every Git LFS pointer file. */
  const LfsVersionLine: string := "version https://git-lfs.github.com/spec/v1"
  const OidPrefix: string := "oid sha256:"
  const SizePrefix: string := "size "

  /** `is_lfs_pointer`: the content starts with the bytes of the version line. */
  function IsLfsPointer(content: Bytes): (r: bool)
    ensures r <==> |content| >= 42 && content[..42] == Ascii(LfsVersionLine)
  {
    StartsWith(content, Ascii(LfsVersionLine))
  }

  /** The UTF-8 decoder gives back any ASCII text from its bytes. */
  ghost predicate DecodesAscii(decodeUtf8: Bytes -> Option<string>)
  {
    forall s: string :: (forall k :: 0 <= k < |s| ==> s[k] < 128 as char) ==> decodeUtf8(Ascii(s)) == Some(s)
  }

  // ---------------------------------------------------------------------------
  // parse_lfs_pointer

  /** One line of the loop: an `oid sha256:` line sets the oid, a `size `
      line sets the size, or raises when its value is not a number. */
  function PointerLine(fields: (string, int), line: string): Option<(string, int)>
  {
    if StartsWith(line, OidPrefix) then Some((Strip(RemoveAll(line, OidPrefix)), fields.1))
    else if StartsWith(line, SizePrefix) then
      match ParseInt(Strip(RemoveAll(line, SizePrefix)))
      case None => None
      case Some(n) => Some((fields.0, n))
    else Some(fields)
  }

  /** The oid and size after the given lines, from `("", 0)`; None once a
      line raised. */
  function PointerFields(lines: seq<string>): Option<(string, int)>
    decreases |lines|
  {
    if lines == [] then Some(("", 0))
    else
      match PointerFields(lines[..|lines| - 1])
      case None => None
      case Some(fields) => PointerLine(fields, lines[|lines| - 1])
  }

  /** What `parse_lfs_pointer` returns, or None where it raises. */
  function LfsPointer(content: Bytes, decodeUtf8: Bytes -> Option<string>): Option<(string, int)>
  {
    match decodeUtf8(content)
    case None => None
    case Some(text) => PointerFields(SplitLines(text))
  }

  /** `parse_lfs_pointer`: decode, split into lines, and fold them. */
  method ParseLfsPointer(content: Bytes, decodeUtf8: Bytes -> Option<string>) returns (r: Option<(string, int)>)
    ensures r == LfsPointer(content, decodeUtf8)
  {
    var text := decodeUtf8(content);
    if text == None {
      return None;
    }
    var lines := SplitLines(text.value);
    var oid := "";
    var size := 0;
    var i := 0;
    assert lines[..i] == [];
    while i < |lines|
      invariant 0 <= i <= |lines|
      invariant PointerFields(lines[..i]) == Some((oid, size))
    {
      PointerFieldsNext(lines, i, (oid, size));
      var ok;
      ok, oid, size := ReadPointerLine(lines[i], oid, size);
      if !ok {
        RaisedStaysRaised(lines, i + 1);
        return None;
      }
      i := i + 1;
    }
    assert lines[..i] == lines;
    r := Some((oid, size));
  }

  /** The body of the loop over the lines; `ok` is false where it raises. */
  method ReadPointerLine(line: string, oid: string, size: int) returns (ok: bool, oid': string, size': int)
    ensures ok <==> PointerLine((oid, size), line).Some?
    ensures ok ==> PointerLine((oid, size), line) == Some((oid', size'))
  {
    ok, oid', size' := true, oid, size;
    if StartsWith(line, OidPrefix) {
      oid' := Strip(RemoveAll(line, OidPrefix));
    } else if StartsWith(line, SizePrefix) {
      var value := ParseInt(Strip(RemoveAll(line, SizePrefix)));
      if value == None {
        return false, oid, size;
      }
      size' := value.value;
    }
  }

  /** Once a line raised, later lines change nothing. */
  lemma {:induction false} RaisedStaysRaised(lines: seq<string>, i: nat)
    requires i <= |lines| && PointerFields(lines[..i]) == None
    ensures PointerFields(lines) == None
    decreases |lines| - i
  {
    if i < |lines| {
      assert lines[..i + 1][..i] == lines[..i];
      RaisedStaysRaised(lines, i + 1);
    } else {
      assert lines[..i] == lines;
    }
  }

  /** No line starts with both prefixes. */
  lemma {:induction false} PrefixesExclusive(line: string)
    ensures !(StartsWith(line, OidPrefix) && StartsWith(line, SizePrefix))
  {
    if StartsWith(line, OidPrefix) {
      assert line[0] == line[..|OidPrefix|][0] == 'o';
      if |SizePrefix| <= |line| {
        assert line[..|SizePrefix|][0] == line[0];
      }
    }
  }

  /** A `size ` line whose value is not a number. */
  predicate BadSizeLine(line: string)
  {
    StartsWith(line, SizePrefix) && ParseInt(Strip(RemoveAll(line, SizePrefix))) == None
  }

  /** A `size ` line whose value is not a number raises. */
  lemma {:induction false} SizeLineRaises(fields: (string, int), line: string)
    requires BadSizeLine(line)
    ensures PointerLine(fields, line) == None
  {
    PrefixesExclusive(line);
  }

  /** A `size ` line whose value is not a number makes the whole call raise. */
  lemma {:induction false} SizeNotNumberRaises(lines: seq<string>, i: nat)
    requires i < |lines| && BadSizeLine(lines[i])
    ensures PointerFields(lines) == None
  {
    var prefix := lines[..i + 1];
    assert prefix[|prefix| - 1] == lines[i];
    RaisedBy(prefix);
    RaisedStaysRaised(lines, i + 1);
  }

  lemma {:induction false} RaisedBy(prefix: seq<string>)
    requires prefix != [] && BadSizeLine(prefix[|prefix| - 1])
    ensures PointerFields(prefix) == None
  {
    var before := PointerFields(prefix[..|prefix| - 1]);
    if before.Some? {
      SizeLineRaises(before.value, prefix[|prefix| - 1]);
    }
  }

  /** Lines with neither prefix leave the defaults `("", 0)`. */
  lemma {:induction false} MissingFieldsDefault(lines: seq<string>)
    requires forall i :: 0 <= i < |lines| ==> !StartsWith(lines[i], OidPrefix) && !StartsWith(lines[i], SizePrefix)
    ensures PointerFields(lines) == Some(("", 0))
    decreases |lines|
  {
    if lines != [] {
      MissingFieldsDefault(lines[..|lines| - 1]);
    }
  }

  /** The oid comes from the last `oid sha256:` line. */
  lemma {:induction false} LastOidLineWins(lines: seq<string>, i: nat)
    requires i < |lines| && StartsWith(lines[i], OidPrefix)
    requires forall k :: i < k < |lines| ==> !StartsWith(lines[k], OidPrefix)
    requires PointerFields(lines).Some?
    ensures PointerFields(lines).value.0 == Strip(RemoveAll(lines[i], OidPrefix))
    decreases |lines|
  {
    var init := lines[..|lines| - 1];
    if i < |lines| - 1 {
      assert init[i] == lines[i];
      LastOidLineWins(init, i);
    }
  }

  /** The size comes from the last `size ` line. */
  lemma {:induction false} LastSizeLineWins(lines: seq<string>, i: nat)
    requires i < |lines| && StartsWith(lines[i], SizePrefix)
    requires forall k :: i < k < |lines| ==> !StartsWith(lines[k], SizePrefix)
    requires PointerFields(lines).Some?
    ensures ParseInt(Strip(RemoveAll(lines[i], SizePrefix))) == Some(PointerFields(lines).value.1)
    decreases |lines|
  {
    var init := lines[..|lines| - 1];
    var last := lines[|lines| - 1];
    PrefixesExclusive(last);
    if i < |lines| - 1 {
      assert init[i] == lines[i];
      LastSizeLineWins(init, i);
    }
  }

  // ---------------------------------------------------------------------------
  // Pointer files.

  predicate IsHexText(s: string)
  {
    forall k :: 0 <= k < |s| ==> ('0' <= s[k] <= '9') || ('a' <= s[k] <= 'f')
  }

  predicate IsAsciiText(s: string)
  {
    forall k :: 0 <= k < |s| ==> s[k] < 128 as char
  }

  lemma {:induction false} AsciiConcat(a: string, b: string)
    requires IsAsciiText(a) && IsAsciiText(b)
    ensures IsAsciiText(a + b)
  {
    forall k | 0 <= k < |a + b|
      ensures (a + b)[k] < 128 as char
    {
      if k >= |a| {
        assert (a + b)[k] == b[k - |a|];
      }
    }
  }

  /** The three lines of the pointer file written for an object id and a size. */
  function PointerLines(oid: string, size: nat): seq<string>
  {
    [LfsVersionLine, OidPrefix + oid, SizePrefix + Decimal(size)]
  }

  /** The pointer file written for an object id and a size. */
  function PointerText(oid: string, size: nat): string
  {
    Terminated(PointerLines(oid, size))
  }

  lemma {:induction false} PointerTextSpelled(oid: string, size: nat)
    ensures PointerText(oid, size)
            == LfsVersionLine + "\n" + (OidPrefix + oid) + "\n" + (SizePrefix + Decimal(size)) + "\n"
  {
    var lines := PointerLines(oid, size);
    assert lines[1..] == [lines[1], lines[2]];
    assert [lines[1], lines[2]][1..] == [lines[2]];
    assert [lines[2]][1..] == [];
    assert Terminated([lines[2]]) == lines[2] + "\n";
    assert Terminated([lines[1], lines[2]]) == lines[1] + "\n" + (lines[2] + "\n");
  }

  lemma {:induction false} PointerTextIsAscii(oid: string, size: nat)
    requires IsHexText(oid)
    ensures IsAsciiText(PointerText(oid, size))
  {
    var d := Decimal(size);
    PointerTextSpelled(oid, size);
    assert IsAsciiText(LfsVersionLine + "\n");
    assert IsAsciiText(OidPrefix) && IsAsciiText(oid) && IsAsciiText(SizePrefix) && IsAsciiText(d);
    AsciiConcat(OidPrefix, oid);
    AsciiConcat(SizePrefix, d);
    AsciiConcat(LfsVersionLine + "\n", OidPrefix + oid);
    AsciiConcat(LfsVersionLine + "\n" + (OidPrefix + oid), "\n");
    AsciiConcat(LfsVersionLine + "\n" + (OidPrefix + oid) + "\n", SizePrefix + d);
    AsciiConcat(LfsVersionLine + "\n" + (OidPrefix + oid) + "\n" + (SizePrefix + d), "\n");
  }

  /** The oid line of a pointer reads back the oid. */
  lemma {:induction false} OidLineReads(oid: string)
    requires IsHexText(oid)
    ensures PointerLine(("", 0), OidPrefix + oid) == Some((oid, 0))
  {
    var line := OidPrefix + oid;
    assert StartsWith(line, OidPrefix) by {
      assert line[..|OidPrefix|] == OidPrefix;
    }
    assert RemoveAll(line, OidPrefix) == oid by {
      RemoveAllLeading(OidPrefix, oid);
      AbsentByFirst(oid, OidPrefix);
      RemoveAllAbsent(oid, OidPrefix);
    }
    assert Strip(oid) == oid by {
      assert Trimmed(oid);
      StripTrimmed(oid);
    }
  }

  /** The size line of a pointer reads back the size. */
  lemma {:induction false} SizeLineReads(oid: string, size: nat)
    ensures PointerLine((oid, 0), SizePrefix + Decimal(size)) == Some((oid, size))
  {
    var d := Decimal(size);
    var line := SizePrefix + d;
    assert StartsWith(line, SizePrefix) by {
      assert line[..|SizePrefix|] == SizePrefix;
    }
    PrefixesExclusive(line);
    assert RemoveAll(line, SizePrefix) == d by {
      RemoveAllLeading(SizePrefix, d);
      AbsentByFirst(d, SizePrefix);
      RemoveAllAbsent(d, SizePrefix);
    }
    assert Strip(d) == d by {
      assert Trimmed(d);
      StripTrimmed(d);
    }
    ParseIntDecimal(size);
  }

  /** The lines of a pointer fold to its oid and size. */
  lemma {:induction false} PointerLinesRead(oid: string, size: nat)
    requires IsHexText(oid)
    ensures PointerFields(PointerLines(oid, size)) == Some((oid, size))
  {
    var lines := PointerLines(oid, size);
    assert lines[..0] == [];
    assert !StartsWith(lines[0], OidPrefix) by {
      assert lines[0][0] != OidPrefix[0];
    }
    assert !StartsWith(lines[0], SizePrefix) by {
      assert lines[0][0] != SizePrefix[0];
    }
    PointerFieldsNext(lines, 0, ("", 0));
    OidLineReads(oid);
    PointerFieldsNext(lines, 1, ("", 0));
    SizeLineReads(oid, size);
    PointerFieldsNext(lines, 2, (oid, 0));
    assert lines[..3] == lines;
  }

  /** The fold over one more line is that line applied to the fold so far. */
  lemma {:induction false} PointerFieldsNext(lines: seq<string>, i: nat, fields: (string, int))
    requires i < |lines| && PointerFields(lines[..i]) == Some(fields)
    ensures PointerFields(lines[..i + 1]) == PointerLine(fields, lines[i])
  {
    assert lines[..i + 1][..i] == lines[..i];
  }

  lemma {:induction false} PointerLinesHaveNoBreak(oid: string, size: nat)
    requires IsHexText(oid)
    ensures forall i :: 0 <= i < |PointerLines(oid, size)| ==> NoLineBreak(PointerLines(oid, size)[i])
  {
    var d := Decimal(size);
    VersionLineNoBreak();
    assert NoLineBreak(OidPrefix) && NoLineBreak(oid);
    assert NoLineBreak(SizePrefix) && NoLineBreak(d);
    NoBreakConcat(OidPrefix, oid);
    NoBreakConcat(SizePrefix, d);
  }

  lemma VersionLineNoBreak()
    ensures NoLineBreak(LfsVersionLine)
  {
    assert PrintableText(LfsVersionLine);
    PrintableNoBreak(LfsVersionLine);
  }

  /** Text made of printable ASCII characters, space to tilde. */
  predicate PrintableText(s: string)
  {
    forall k :: 0 <= k < |s| ==> ' ' <= s[k] <= '~'
  }

  lemma {:induction false} PrintableNoBreak(s: string)
    requires PrintableText(s)
    ensures NoLineBreak(s)
  {
    forall k | 0 <= k < |s|
      ensures !IsLineBreak(s[k])
    {
      assert ' ' <= s[k] <= '~';
    }
  }

  lemma {:induction false} NoBreakConcat(a: string, b: string)
    requires NoLineBreak(a) && NoLineBreak(b)
    ensures NoLineBreak(a + b)
  {
    forall k | 0 <= k < |a + b|
      ensures !IsLineBreak((a + b)[k])
    {
      if k >= |a| {
        assert (a + b)[k] == b[k - |a|];
      }
    }
  }

  /** A written pointer starts with the version line. */
  lemma {:induction false} PointerRecognised(oid: string, size: nat)
    requires IsHexText(oid)
    ensures IsAsciiText(PointerText(oid, size))
    ensures IsLfsPointer(Ascii(PointerText(oid, size)))
  {
    var t := PointerText(oid, size);
    PointerTextIsAscii(oid, size);
    PointerTextSpelled(oid, size);
    assert t[..42] == LfsVersionLine;
    assert Ascii(t)[..42] == Ascii(t[..42]);
  }

  /** A written pointer, decoded and split, gives back its three lines. */
  lemma {:induction false} PointerSplits(oid: string, size: nat, decodeUtf8: Bytes -> Option<string>)
    requires IsHexText(oid) && DecodesAscii(decodeUtf8)
    ensures IsAsciiText(PointerText(oid, size))
    ensures decodeUtf8(Ascii(PointerText(oid, size))) == Some(PointerText(oid, size))
    ensures SplitLines(PointerText(oid, size)) == PointerLines(oid, size)
  {
    PointerTextIsAscii(oid, size);
    PointerLinesHaveNoBreak(oid, size);
    SplitTerminated(PointerLines(oid, size));
  }

  /** A written pointer is recognised and parses back to its oid and size. */
  lemma {:induction false} PointerRoundTrip(oid: string, size: nat, decodeUtf8: Bytes -> Option<string>)
    requires IsHexText(oid) && DecodesAscii(decodeUtf8)
    ensures IsAsciiText(PointerText(oid, size))
    ensures IsLfsPointer(Ascii(PointerText(oid, size)))
    ensures LfsPointer(Ascii(PointerText(oid, size)), decodeUtf8) == Some((oid, size))
  {
    PointerSplits(oid, size, decodeUtf8);
    PointerLinesRead(oid, size);
    PointerRecognised(oid, size);
  }

  lemma {:induction false} DecimalHundred(n: nat)
    requires n == 100
    ensures Decimal(n) == "100"
  {
    var ten: nat := n / 10;
    var one: nat := ten / 10;
    assert Decimal(one) == "1";
    assert Decimal(ten) == Decimal(one) + "0";
    assert Decimal(n) == Decimal(ten) + "0";
  }

  lemma {:induction false} SampleText(oid: string, size: nat, text: string)
    requires oid == "12345678" && size == 100
    requires text == "version https://git-lfs.github.com/spec/v1\noid sha256:12345678\nsize 100\n"
    ensures IsHexText(oid) && text == PointerText(oid, size)
  {
    DecimalHundred(size);
    PointerTextSpelled(oid, size);
  }

  /** The pointer of the endpoint's own test reads as ("12345678", 100). */
  lemma {:induction false} SamplePointer(decodeUtf8: Bytes -> Option<string>, text: string, oid: string, size: nat)
    requires DecodesAscii(decodeUtf8)
    requires text == "version https://git-lfs.github.com/spec/v1\noid sha256:12345678\nsize 100\n"
    requires oid == "12345678" && size == 100
    ensures IsAsciiText(text) && IsLfsPointer(Ascii(text))
    ensures LfsPointer(Ascii(text), decodeUtf8) == Some((oid, size))
  {
    SampleText(oid, size, text);
    PointerRoundTrip(oid, size, decodeUtf8);
  }

  // ---------------------------------------------------------------------------
  // The endpoint.

  /** The endpoint's answer. */
  datatype PushResponse =
    | Pushed(objectsReceived: nat, blobs: nat, lfsPointers: nat, repository: string)
    | RepoNotFound404
    | EmptyPack400
    | PushFailed500   // any exception while parsing, counting or committing

  /** Ids of the blobs (type 3) among the decoded objects. */
  function BlobIds(objects: map<string, PackObject>): set<string>
  {
    set id | id in objects && objects[id].kind == 3
  }

  /** Ids of the blobs that are LFS pointers. */
  function PointerIds(objects: map<string, PackObject>): set<string>
  {
    set id | id in BlobIds(objects) && IsLfsPointer(objects[id].content)
  }

  /** Ids of the other blobs. */
  function PlainBlobIds(objects: map<string, PackObject>): set<string>
  {
    BlobIds(objects) - PointerIds(objects)
  }

  /** Every pointer blob parses. */
  predicate PointersParse(objects: map<string, PackObject>, decodeUtf8: Bytes -> Option<string>)
  {
    forall id :: id in PointerIds(objects) ==> LfsPointer(objects[id].content, decodeUtf8).Some?
  }

  /** The two counters split the blobs, and no more blobs than objects. */
  lemma {:induction false} CountsPartitionBlobs(objects: map<string, PackObject>)
    ensures |PlainBlobIds(objects)| + |PointerIds(objects)| == |BlobIds(objects)|
    ensures |BlobIds(objects)| <= |objects|
  {
    var b, p := BlobIds(objects), PointerIds(objects);
    assert b == (b - p) + p;
    assert BlobIds(objects) <= objects.Keys;
    assert |objects.Keys| == |objects|;
    SubsetCardinality(BlobIds(objects), objects.Keys);
  }

  lemma SubsetCardinality<T>(a: set<T>, b: set<T>)
    requires a <= b
    ensures |a| <= |b|
  {
    assert b == a + (b - a);
  }

  /** Taking `id` out of the remaining ids adds it to those done when it is in `s`. */
  lemma DoneGrows<T>(s: set<T>, remaining: set<T>, id: T)
    requires id in remaining
    ensures |s - (remaining - {id})| == |s - remaining| + (if id in s then 1 else 0)
  {
    if id in s {
      assert s - (remaining - {id}) == (s - remaining) + {id};
    } else {
      assert s - (remaining - {id}) == s - remaining;
    }
  }

  /** One pass of the counting loop over the object `id`. */
  method CountObject(obj: PackObject, decodeUtf8: Bytes -> Option<string>, blobs: nat, pointers: nat)
    returns (ok: bool, blobs': nat, pointers': nat)
    ensures ok <==> !(obj.kind == 3 && IsLfsPointer(obj.content)) || LfsPointer(obj.content, decodeUtf8).Some?
    ensures ok ==> blobs' == blobs + (if obj.kind == 3 && !IsLfsPointer(obj.content) then 1 else 0)
    ensures ok ==> pointers' == pointers + (if obj.kind == 3 && IsLfsPointer(obj.content) then 1 else 0)
  {
    blobs', pointers' := blobs, pointers;
    ok := true;
    if obj.kind == 3 {
      if IsLfsPointer(obj.content) {
        var parsed := ParseLfsPointer(obj.content, decodeUtf8);
        if parsed == None {
          return false, blobs, pointers;
        }
        pointers' := pointers + 1;
      } else {
        blobs' := blobs + 1;
      }
    }
  }

  /** The counting loop over `objects.items()`, in any order. */
  method CountBlobs(objects: map<string, PackObject>, decodeUtf8: Bytes -> Option<string>)
    returns (ok: bool, blobs: nat, pointers: nat)
    ensures ok <==> PointersParse(objects, decodeUtf8)
    ensures ok ==> blobs == |PlainBlobIds(objects)| && pointers == |PointerIds(objects)|
  {
    var remaining := objects.Keys;
    blobs, pointers := 0, 0;
    while remaining != {}
      invariant Counted(objects, decodeUtf8, remaining, blobs, pointers)
      decreases |remaining|
    {
      var id :| id in remaining;
      var step, blobs', pointers' := CountObject(objects[id], decodeUtf8, blobs, pointers);
      if !step {
        PointerFails(objects, decodeUtf8, id);
        return false, 0, 0;
      }
      CountedStep(objects, decodeUtf8, remaining, id, blobs, pointers, blobs', pointers');
      remaining, blobs, pointers := remaining - {id}, blobs', pointers';
    }
    CountedAll(objects, decodeUtf8, blobs, pointers);
    ok := true;
  }

  /** A pointer blob that does not parse fails the whole count. */
  lemma {:induction false} PointerFails(objects: map<string, PackObject>, decodeUtf8: Bytes -> Option<string>, id: string)
    requires id in objects && objects[id].kind == 3 && IsLfsPointer(objects[id].content)
    requires LfsPointer(objects[id].content, decodeUtf8).None?
    ensures !PointersParse(objects, decodeUtf8)
  {
    assert id in PointerIds(objects);
  }

  /** With every object visited, the counters are the totals. */
  lemma {:induction false} CountedAll(objects: map<string, PackObject>, decodeUtf8: Bytes -> Option<string>, blobs: nat, pointers: nat)
    requires Counted(objects, decodeUtf8, {}, blobs, pointers)
    ensures PointersParse(objects, decodeUtf8)
    ensures blobs == |PlainBlobIds(objects)| && pointers == |PointerIds(objects)|
  {
    assert PlainBlobIds(objects) - {} == PlainBlobIds(objects);
    assert PointerIds(objects) - {} == PointerIds(objects);
  }

  /** The counting loop's invariant: the counters hold the blobs already
      visited, and every pointer visited so far parsed. */
  predicate Counted(objects: map<string, PackObject>, decodeUtf8: Bytes -> Option<string>,
                    remaining: set<string>, blobs: nat, pointers: nat)
  {
    && remaining <= objects.Keys
    && blobs == |PlainBlobIds(objects) - remaining|
    && pointers == |PointerIds(objects) - remaining|
    && forall id :: id in PointerIds(objects) - remaining ==> LfsPointer(objects[id].content, decodeUtf8).Some?
  }

  /** Visiting one more object keeps the counting loop's invariant. */
  lemma {:induction false} CountedStep(objects: map<string, PackObject>, decodeUtf8: Bytes -> Option<string>,
                                       remaining: set<string>, id: string, blobs: nat, pointers: nat,
                                       blobs': nat, pointers': nat)
    requires Counted(objects, decodeUtf8, remaining, blobs, pointers) && id in remaining
    requires var obj := objects[id];
             && (!(obj.kind == 3 && IsLfsPointer(obj.content)) || LfsPointer(obj.content, decodeUtf8).Some?)
             && blobs' == blobs + (if obj.kind == 3 && !IsLfsPointer(obj.content) then 1 else 0)
             && pointers' == pointers + (if obj.kind == 3 && IsLfsPointer(obj.content) then 1 else 0)
    ensures Counted(objects, decodeUtf8, remaining - {id}, blobs', pointers')
  {
    DoneGrows(PlainBlobIds(objects), remaining, id);
    DoneGrows(PointerIds(objects), remaining, id);
  }

  /** `git_push_endpoint`: the repository (looked up as a model repository),
      a non-empty body, the pack, the counts, then the commit. */
  method GitPushEndpoint(repositories: set<(string, string, string)>, namespace: string, name: string,
                         packData: Bytes, inflate: Inflate, sha1hex: Bytes -> string,
                         decodeUtf8: Bytes -> Option<string>, commitSucceeds: bool)
    returns (r: PushResponse)
    requires Consumes(inflate)
    ensures ("model", namespace, name) !in repositories ==> r == RepoNotFound404
    ensures ("model", namespace, name) in repositories && packData == [] ==> r == EmptyPack400
    ensures ("model", namespace, name) in repositories && packData != [] ==>
              var spec := ParsePack(packData, inflate, sha1hex);
              if spec.Err? || !PointersParse(spec.value.objects, decodeUtf8) || !commitSucceeds then r == PushFailed500
              else r == Pushed(|spec.value.objects|, |PlainBlobIds(spec.value.objects)|,
                               |PointerIds(spec.value.objects)|, namespace + "/" + name)
  {
    var repoId := namespace + "/" + name;
    if ("model", namespace, name) !in repositories {
      return RepoNotFound404;
    }
    if packData == [] {
      return EmptyPack400;
    }
    var parser := new GitPackParser(packData);
    var parsed := parser.Parse(inflate, sha1hex);
    if parsed.Err? {
      return PushFailed500;
    }
    var objects := parsed.value;
    var ok, blobs, pointers := CountBlobs(objects, decodeUtf8);
    if !ok {
      return PushFailed500;
    }
    if !commitSucceeds {
      return PushFailed500;
    }
    r := Pushed(|objects|, blobs, pointers, repoId);
  }
}
