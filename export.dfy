/**
 * The export of `download_excel`: the sheet holds every record of the
 * session, under Dutch column titles, and the download's file name is the
 * uploaded name with every ".xml" replaced by "_output.xlsx".
 */
module Export {
  import opened Wrappers
  import opened PyBuiltins
  import opened Ritten

  /** `column_mapping`: the Dutch title of each record key. */
  const ColumnMapping: map<string, string> := map[
    "rit_id" := "Rit ID",
    "datum_tijd_registratie" := "Datum Tijd Registratie",
    "type" := "Type",
    "bestuurder_id" := "Bestuurder ID",
    "km_stand_begin" := "Kilometerstand Begin",
    "km_stand_eind" := "Kilometerstand Eind",
    "prijs" := "Prijs",
    "latitude_begin" := "Latitude Begin",
    "longitude_begin" := "Longitude Begin",
    "latitude_eind" := "Latitude Eind",
    "longitude_eind" := "Longitude Eind"]

  /** The header row of a non-empty export, in column order. */
  const DutchTitles: seq<string> := [
    "Rit ID", "Datum Tijd Registratie", "Type", "Bestuurder ID", "Kilometerstand Begin",
    "Kilometerstand Eind", "Prijs", "Latitude Begin", "Longitude Begin", "Latitude Eind",
    "Longitude Eind"]

  const SheetName: string := "Ritadministratie"

  /** `df.rename(columns=column_mapping)` on one column: a column without a title keeps its name. */
  function Rename(column: string): string {
    if column in ColumnMapping then ColumnMapping[column] else column
  }

  /** The columns of `pd.DataFrame(data)`: the record keys in order, and none at all without records. */
  function Columns(data: seq<Rit>): seq<string> {
    if data == [] then [] else FieldKeys
  }

  /** The header row after renaming. */
  function Headers(data: seq<Rit>): seq<string> {
    var columns := Columns(data);
    seq(|columns|, i requires 0 <= i < |columns| => Rename(columns[i]))
  }

  /** Every record key has a Dutch title, so a non-empty export is headed by exactly the eleven titles. */
  lemma HeadersAreDutchTitles(data: seq<Rit>)
    ensures Headers(data) == if data == [] then [] else DutchTitles
  {
    if data != [] {
      forall i | 0 <= i < |FieldKeys| ensures Rename(FieldKeys[i]) == DutchTitles[i] {
        assert FieldKeys[i] in ColumnMapping;
      }
    }
  }

  /** No two columns share a title. */
  lemma DutchTitlesDistinct()
    ensures forall i, j :: 0 <= i < j < |DutchTitles| ==> DutchTitles[i] != DutchTitles[j]
  {
  }

  /** One worksheet: its name, header row and one row of cells per record (an absent text is an empty cell). */
  datatype Sheet = Sheet(name: string, headers: seq<string>, rows: seq<seq<Value>>)

  /** `df.to_excel(writer, sheet_name="Ritadministratie", index=False)` over the session's records. */
  function ToSheet(data: seq<Rit>): (s: Sheet)
    ensures s.name == SheetName
    ensures |s.rows| == |data|
    ensures forall i :: 0 <= i < |data| ==> s.rows[i] == Values(data[i]) && |s.rows[i]| == |s.headers|
  {
    Sheet(SheetName, Headers(data), seq(|data|, i requires 0 <= i < |data| => Values(data[i])))
  }

  const XmlExtension: string := ".xml"
  const OutputSuffix: string := "_output.xlsx"

  /** `original_filename.replace(".xml", "_output.xlsx")` (line 222). */
  function ExcelFilename(original: string): string {
    Replace(original, XmlExtension, OutputSuffix)
  }

  /** The replacement's first character: "_" where ".xml" starts, the original's first character elsewhere. */
  lemma ReplaceHead(t: string)
    requires t != []
    ensures ExcelFilename(t) != []
    ensures !StartsWith(t, XmlExtension) ==> ExcelFilename(t) == [t[0]] + ExcelFilename(t[1..])
    ensures ExcelFilename(t)[0] == if StartsWith(t, XmlExtension) then '_' else t[0]
  {
  }

  /** Where the first k characters of a replaced name hold no "_", they are the name's own first k characters. */
  lemma {:induction false} UnchangedPrefix(t: string, k: nat)
    requires k <= |ExcelFilename(t)|
    requires forall j :: 0 <= j < k ==> ExcelFilename(t)[j] != '_'
    ensures k <= |t| && t[..k] == ExcelFilename(t)[..k]
    decreases k
  {
    if k > 0 {
      ReplaceHead(t);
      var tail := ExcelFilename(t[1..]);
      assert ExcelFilename(t) == [t[0]] + tail;
      forall j | 0 <= j < k - 1 ensures tail[j] != '_' {
        assert tail[j] == ExcelFilename(t)[j + 1];
      }
      UnchangedPrefix(t[1..], k - 1);
      assert t[..k] == [t[0]] + t[1..][..k - 1];
    }
  }

  /** A replaced name starts with ".xml" only if the name itself did. */
  lemma ReplacedHeadOccurrence(t: string)
    ensures OccursAt(XmlExtension, ExcelFilename(t), 0) ==> StartsWith(t, XmlExtension)
  {
    if OccursAt(XmlExtension, ExcelFilename(t), 0) {
      UnchangedPrefix(t, |XmlExtension|);
    }
  }

  /** The export name never still contains ".xml": every occurrence was replaced. */
  lemma {:induction false} ExcelFilenameHasNoXml(s: string)
    ensures forall i :: !OccursAt(XmlExtension, ExcelFilename(s), i)
    decreases |s|
  {
    var r := ExcelFilename(s);
    if StartsWith(s, XmlExtension) {
      var tail := ExcelFilename(s[|XmlExtension|..]);
      ExcelFilenameHasNoXml(s[|XmlExtension|..]);
      assert r == OutputSuffix + tail;
      forall i ensures !OccursAt(XmlExtension, r, i) {
        if 0 <= i < |OutputSuffix| && i + 4 <= |r| {
          if i == 7 {
            assert r[i..i + 4][2] == r[i + 2] == 'l';
          } else {
            assert r[i..i + 4][0] == r[i] == OutputSuffix[i] != '.';
          }
        } else if |OutputSuffix| <= i {
          OccursAtShift(XmlExtension, OutputSuffix, tail, i);
          assert !OccursAt(XmlExtension, tail, i - |OutputSuffix|);
        }
      }
    } else if s != [] {
      var tail := ExcelFilename(s[1..]);
      ExcelFilenameHasNoXml(s[1..]);
      ReplaceHead(s);
      ReplacedHeadOccurrence(s);
      forall i ensures !OccursAt(XmlExtension, r, i) {
        if 1 <= i {
          OccursAtShift(XmlExtension, [s[0]], tail, i);
          assert !OccursAt(XmlExtension, tail, i - 1);
        }
      }
    }
  }

  /** A non-empty name without ".xml", followed by ".xml", does not itself start with ".xml". */
  lemma JoinDoesNotStartWithXml(stem: string)
    requires stem != [] && !Contains(XmlExtension, stem)
    ensures !StartsWith(stem + XmlExtension, XmlExtension) && !Contains(XmlExtension, stem[1..])
  {
    var s := stem + XmlExtension;
    assert !StartsWith(stem, XmlExtension);
    if |stem| >= 4 {
      assert s[..4] == stem[..4];
    } else {
      assert s[..4][|stem|] == s[|stem|] == '.' != XmlExtension[|stem|];
    }
  }

  /** Before the final ".xml" of such a name, the replacement copies the name's first character. */
  lemma ExcelFilenameStep(stem: string)
    requires stem != [] && !Contains(XmlExtension, stem)
    ensures ExcelFilename(stem + XmlExtension) == [stem[0]] + ExcelFilename(stem[1..] + XmlExtension)
  {
    var s := stem + XmlExtension;
    JoinDoesNotStartWithXml(stem);
    ReplaceHead(s);
    assert s[1..] == stem[1..] + XmlExtension;
  }

  /** Splitting off the first character of the left operand of a concatenation. */
  lemma ConsAppend(t: string, u: string)
    requires t != []
    ensures t + u == [t[0]] + (t[1..] + u)
  {
  }

  /** Concatenation regroups freely. */
  lemma JoinAssociates(t: string, u: string, v: string)
    ensures t + u + v == t + (u + v)
  {
  }

  /** The bare extension becomes the bare suffix. */
  lemma ExtensionAlone()
    ensures ExcelFilename(XmlExtension) == OutputSuffix
  {
    assert XmlExtension[|XmlExtension|..] == [];
  }

  /** A name ending in ".xml", with no other ".xml" before it, gets "_output.xlsx" in its place. */
  lemma {:induction false} ExcelFilenameOfXmlName(stem: string)
    requires !Contains(XmlExtension, stem)
    ensures ExcelFilename(stem + XmlExtension) == stem + OutputSuffix
    decreases |stem|
  {
    if stem == [] {
      assert stem + XmlExtension == XmlExtension;
      ExtensionAlone();
    } else {
      JoinDoesNotStartWithXml(stem);
      ExcelFilenameStep(stem);
      ExcelFilenameOfXmlName(stem[1..]);
      ConsAppend(stem, OutputSuffix);
    }
  }

  /** A name that starts with ".xml" gets "_output.xlsx" in its place, then the rest is replaced. */
  lemma ExtensionThen(b: string)
    ensures ExcelFilename(XmlExtension + b) == OutputSuffix + ExcelFilename(b)
  {
    var s := XmlExtension + b;
    assert s[..|XmlExtension|] == XmlExtension;
    assert s[|XmlExtension|..] == b;
  }

  /** Whether a text starts with a pattern no longer than its first part is decided by that part alone. */
  lemma StartsWithLonger(t: string, u: string, p: string)
    requires |p| <= |t|
    ensures StartsWith(t + u, p) == StartsWith(t, p)
  {
    assert (t + u)[..|p|] == t[..|p|];
  }

  /** Before the first ".xml" of a name, the replacement copies the name's first character. */
  lemma ExcelFilenameStepAt(a: string, b: string)
    requires a != [] && !Contains(XmlExtension, a)
    ensures ExcelFilename(a + XmlExtension + b) == [a[0]] + ExcelFilename(a[1..] + XmlExtension + b)
  {
    var s := a + XmlExtension + b;
    JoinDoesNotStartWithXml(a);
    StartsWithLonger(a + XmlExtension, b, XmlExtension);
    ReplaceHead(s);
    ConsAppend(a, XmlExtension);
    ConsAppend(a + XmlExtension, b);
    assert s[0] == a[0];
  }

  /**
   * At the first ".xml" of any name, the replacement writes "_output.xlsx"
   * after the unchanged text before it and goes on with the rest of the name.
   */
  lemma {:induction false} ExcelFilenameAtOccurrence(a: string, b: string)
    requires !Contains(XmlExtension, a)
    ensures ExcelFilename(a + XmlExtension + b) == a + OutputSuffix + ExcelFilename(b)
    decreases |a|
  {
    if a == [] {
      assert a + XmlExtension + b == XmlExtension + b;
      ExtensionThen(b);
      JoinAssociates(a, OutputSuffix, ExcelFilename(b));
    } else {
      JoinDoesNotStartWithXml(a);
      ExcelFilenameStepAt(a, b);
      ExcelFilenameAtOccurrence(a[1..], b);
      JoinAssociates(a[1..], OutputSuffix, ExcelFilename(b));
      JoinAssociates(a, OutputSuffix, ExcelFilename(b));
      ConsAppend(a, OutputSuffix + ExcelFilename(b));
    }
  }

  /** A name without ".xml" in exactly this case is returned unchanged: no suffix is appended. */
  lemma ExcelFilenameWithoutXml(original: string)
    requires !Contains(XmlExtension, original)
    ensures ExcelFilename(original) == original
  {
    ReplaceWithoutOccurrence(original, XmlExtension, OutputSuffix);
  }

  /**
   * "TRIPS.XML" passes the upload's case-insensitive check, yet the
   * case-sensitive replacement leaves its export named "TRIPS.XML".
   */
  lemma UpperCaseNameKeptOnExport()
    ensures EndsWith(Lower("TRIPS.XML"), XmlExtension)
    ensures ExcelFilename("TRIPS.XML") == "TRIPS.XML"
  {
    var name := "TRIPS.XML";
    var low := Lower(name);
    assert low[5] == '.' && low[6] == 'x' && low[7] == 'm' && low[8] == 'l';
    assert low[|low| - 4..] == XmlExtension;
    assert forall i :: 0 <= i < |name| ==> name[i] != 'x';
    assert XmlExtension[1] == 'x';
    MissingCharNotContained(XmlExtension, name, 1);
    ExcelFilenameWithoutXml("TRIPS.XML");
  }
}
