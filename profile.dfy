/** Profile: the player records kept in Profile.csv, one line per player
    after a header line.  The file is an object holding its lines, None while
    it does not exist; every line is taken to end with a line break. */
module Profiles {
  import opened Wrappers
  import opened JavaText

  /** The header the constructor writes. */
  const Header: string := "Name, Wins, Losses, Draws"

  /** Profile.csv. */
  class CsvFile {
    var lines: Option<seq<string>>

    constructor (lines: Option<seq<string>>)
      ensures this.lines == lines
    {
      this.lines := lines;
    }
  }

  /** A player's record: what a Profile's four fields hold. */
  datatype Record = Record(name: string, wins: int32, losses: int32, draws: int32)

  // ---------------------------------------------------------------------------
  // findRow
  // ---------------------------------------------------------------------------

  /** The first column of each line, as findRow reads them. */
  function Columns(lines: seq<string>): (cs: seq<Option<string>>)
    ensures |cs| == |lines|
    ensures forall k {:trigger cs[k]} :: 0 <= k < |lines| ==> cs[k] == FirstColumn(lines[k])
  {
    seq(|lines|, k requires 0 <= k < |lines| => FirstColumn(lines[k]))
  }

  /** findRow's scan from line i on, over the first columns of an existing
      file: the first line whose first column is `name`, the number of lines
      when there is none, and None where a line of commas only makes
      columns[0] throw first. */
  function RowFrom(cs: seq<Option<string>>, name: string, i: nat): Option<nat>
    requires i <= |cs|
    decreases |cs| - i
  {
    if i == |cs| then Some(i)
    else
      match cs[i]
      case None => None
      case Some(column) => if column == name then Some(i) else RowFrom(cs, name, i + 1)
  }

  /** findRow(name) on the file: 0 when there is no file to read. */
  function Row(file: Option<seq<string>>, name: string): Option<nat> {
    if file.None? then Some(0) else RowFrom(Columns(file.value), name, 0)
  }

  /** Lines i up to j all have a first column, and none of them is `name`. */
  predicate Passes(cs: seq<Option<string>>, name: string, i: nat, j: nat)
    requires i <= j <= |cs|
  {
    forall k :: i <= k < j ==> cs[k].Some? && cs[k].value != name
  }

  /** The scan finds the first line headed by `name` (or runs off the end),
      every line before it having a first column other than `name`. */
  lemma {:induction false} RowFromFound(cs: seq<Option<string>>, name: string, i: nat)
    requires i <= |cs|
    ensures RowFrom(cs, name, i).Some? ==>
      var r := RowFrom(cs, name, i).value;
      i <= r <= |cs| && Passes(cs, name, i, r) && (r < |cs| ==> cs[r] == Some(name))
    decreases |cs| - i
  {
    if i < |cs| && cs[i].Some? && cs[i].value != name {
      RowFromFound(cs, name, i + 1);
    }
  }

  /** The scan throws exactly when it meets a line without a first column
      before any line headed by `name`. */
  lemma {:induction false} RowFromThrows(cs: seq<Option<string>>, name: string, i: nat)
    requires i <= |cs|
    ensures RowFrom(cs, name, i).None? <==>
      exists j :: i <= j < |cs| && cs[j].None? && Passes(cs, name, i, j)
    decreases |cs| - i
  {
    if RowFrom(cs, name, i).None? {
      if cs[i].None? {
        assert i <= i < |cs| && cs[i].None? && Passes(cs, name, i, i);
      } else {
        RowFromThrows(cs, name, i + 1);
        var j :| i + 1 <= j < |cs| && cs[j].None? && Passes(cs, name, i + 1, j);
        assert Passes(cs, name, i, j);
      }
    } else {
      RowFromFound(cs, name, i);
      var r := RowFrom(cs, name, i).value;
      forall j | i <= j < |cs| && cs[j].None?
        ensures !Passes(cs, name, i, j)
      {
        if j > r {
          assert cs[r].Some? && cs[r].value == name;
        }
      }
    }
  }

  /** findRow: read the lines in order, counting, until one's first column is
      `name`. */
  method FindRow(file: CsvFile, name: string) returns (r: Option<nat>)
    ensures r == Row(file.lines, name)
  {
    if file.lines.None? {
      return Some(0);
    }
    var lines := file.lines.value;
    ghost var cs := Columns(lines);
    var index := 0;
    while index < |lines|
      invariant 0 <= index <= |lines|
      invariant RowFrom(cs, name, index) == RowFrom(cs, name, 0)
    {
      var columns := Split(lines[index], ',');
      assert cs[index] == FirstColumn(lines[index]);
      if |columns| == 0 {
        return None;
      }
      if columns[0] == name {
        return Some(index);
      }
      index := index + 1;
    }
    return Some(index);
  }

  // ---------------------------------------------------------------------------
  // deleteProfile
  // ---------------------------------------------------------------------------

  /** The lines with the one at index i taken out, if there is one. */
  function Without(lines: seq<string>, i: nat): (rest: seq<string>)
    ensures i < |lines| ==> (|rest| == |lines| - 1 &&
      (forall k :: 0 <= k < i ==> rest[k] == lines[k]) &&
      (forall k :: i <= k < |rest| ==> rest[k] == lines[k + 1]))
    ensures i >= |lines| ==> rest == lines
  {
    if i < |lines| then lines[..i] + lines[i + 1..] else lines
  }

  /** Deleting a name no line is headed by, with no line of commas only in
      the file, leaves the file as it was. */
  lemma DeleteMissingKeepsFile(lines: seq<string>, name: string)
    requires forall k :: 0 <= k < |lines| ==> FirstColumn(lines[k]).Some? && FirstColumn(lines[k]).value != name
    ensures Row(Some(lines), name) == Some(|lines|)
    ensures Without(lines, |lines|) == lines
  {
    var cs := Columns(lines);
    assert Passes(cs, name, 0, |lines|);
    RowFromThrows(cs, name, 0);
    RowFromFound(cs, name, 0);
  }

  /** deleteProfile: find the row, then copy every other line, in order.
      `completed` is false where findRow threw, which leaves the file alone. */
  method DeleteProfile(file: CsvFile, name: string) returns (completed: bool)
    modifies file
    ensures completed <==> Row(old(file.lines), name).Some?
    ensures !completed || old(file.lines).None? ==> file.lines == old(file.lines)
    ensures completed && old(file.lines).Some? ==>
      file.lines == Some(Without(old(file.lines).value, Row(old(file.lines), name).value))
  {
    var rowIndex := FindRow(file, name);
    if rowIndex.None? {
      return false;
    }
    if file.lines.None? {
      return true;
    }
    var lines := file.lines.value;
    var row := rowIndex.value;
    var kept: seq<string> := [];
    var index := 0;
    while index < |lines|
      invariant 0 <= index <= |lines|
      invariant kept == if row < index then lines[..row] + lines[row + 1..index] else lines[..index]
    {
      if index != row {
        kept := kept + [lines[index]];
      }
      index := index + 1;
    }
    assert lines[..|lines|] == lines;
    file.lines := Some(kept);
    return true;
  }

  // ---------------------------------------------------------------------------
  // The constructor's header rule
  // ---------------------------------------------------------------------------

  /** What `new Profile()` leaves in the file: the file as it was when
      findRow("Name") is 0, the header alone otherwise; None where findRow
      throws. */
  function HeaderRule(file: Option<seq<string>>): Option<Option<seq<string>>> {
    match Row(file, "Name")
    case None => None
    case Some(row) => if row == 0 then Some(file) else Some(Some([Header]))
  }

  /** The constructor leaves a missing file missing, an empty file empty and a
      file whose first line is headed "Name" alone; a non-empty file headed
      otherwise is either replaced by the header or makes findRow throw. */
  lemma HeaderRuleSpec(file: Option<seq<string>>)
    ensures file.None? || file == Some([]) ==> HeaderRule(file) == Some(file)
    ensures file.Some? && |file.value| > 0 && FirstColumn(file.value[0]) == Some("Name") ==>
      HeaderRule(file) == Some(file)
    ensures file.Some? && |file.value| > 0 && FirstColumn(file.value[0]) != Some("Name") ==>
      HeaderRule(file) in {None, Some(Some([Header]))}
  {
    if file.Some? && |file.value| > 0 {
      var cs := Columns(file.value);
      assert cs[0] == FirstColumn(file.value[0]);
      if cs[0].Some? && cs[0].value != "Name" {
        RowFromFound(cs, "Name", 1);
      }
    }
  }

  /** The header's first column is "Name". */
  lemma HeaderNamed()
    ensures FirstColumn(Header) == Some("Name")
  {
    var rest := " Wins, Losses, Draws";
    assert Header == "Name" + [','] + rest;
    FirstColumnBefore("Name", rest);
  }

  /** The header is headed "Name", so a second construction changes nothing. */
  lemma HeaderRuleIdempotent(file: Option<seq<string>>)
    requires HeaderRule(file).Some?
    ensures HeaderRule(HeaderRule(file).value) == HeaderRule(file)
  {
    var f := HeaderRule(file).value;
    if f != file {
      HeaderNamed();
      HeaderRuleSpec(f);
    }
  }

  // ---------------------------------------------------------------------------
  // Reading and writing records
  // ---------------------------------------------------------------------------

  /** The line createNewProfile writes. */
  function RecordLine(r: Record): string {
    r.name + "," + IntToString(r.wins as int) + "," + IntToString(r.losses as int) + "," + IntToString(r.draws as int)
  }

  /** What the body of loadProfilesFromCSV's loop does with one line, in
      its order: columns 0 and 1 must exist (else ArrayIndexOutOfBounds),
      column 1 must parse (else NumberFormatException), then column 2, then
      column 3. */
  datatype LineResult = Missing | BadNumber | Parsed(record: Record)

  function ParseLine(line: string): LineResult {
    var parts := Split(line, ',');
    if |parts| < 2 then Missing
    else match ParseInt(Trim(parts[1]))
      case None => BadNumber
      case Some(wins) =>
        if |parts| < 3 then Missing
        else match ParseInt(Trim(parts[2]))
          case None => BadNumber
          case Some(losses) =>
            if |parts| < 4 then Missing
            else match ParseInt(Trim(parts[3]))
              case None => BadNumber
              case Some(draws) => Parsed(Record(Trim(parts[0]), wins, losses, draws))
  }

  /** What the loop makes of each line. */
  function Parses(lines: seq<string>): (ps: seq<LineResult>)
    ensures |ps| == |lines|
  {
    if lines == [] then [] else Parses(lines[..|lines| - 1]) + [ParseLine(lines[|lines| - 1])]
  }

  /** Every line's outcome at once, for a loop that reads them one by one. */
  lemma ParsesAll(lines: seq<string>)
    ensures forall k {:trigger ParseLine(lines[k])} :: 0 <= k < |lines| ==> Parses(lines)[k] == ParseLine(lines[k])
  {
    forall k | 0 <= k < |lines|
      ensures Parses(lines)[k] == ParseLine(lines[k])
    {
      ParsesAt(lines, k);
    }
  }

  lemma {:induction false} ParsesAt(lines: seq<string>, k: nat)
    requires k < |lines|
    ensures Parses(lines)[k] == ParseLine(lines[k])
    decreases |lines|
  {
    if k < |lines| - 1 {
      ParsesAt(lines[..|lines| - 1], k);
    }
  }

  /** Records read before the rest of the file, then those of the rest. */
  function Prefixed(rs: seq<Record>, rest: Option<seq<Record>>): (r: Option<seq<Record>>)
    ensures r.Some? <==> rest.Some?
    ensures r.Some? ==> r.value == rs + rest.value
  {
    if rest.None? then None else Some(rs + rest.value)
  }

  lemma PrefixedNothing(rest: Option<seq<Record>>)
    ensures Prefixed([], rest) == rest
  {
    if rest.Some? {
      assert [] + rest.value == rest.value;
    }
  }

  lemma PrefixedEnd(rs: seq<Record>)
    ensures Prefixed(rs, Some([])) == Some(rs)
  {
    assert rs + [] == rs;
  }

  lemma PrefixedTwice(rs: seq<Record>, r: Record, rest: Option<seq<Record>>)
    ensures Prefixed(rs, Prefixed([r], rest)) == Prefixed(rs + [r], rest)
  {
    if rest.Some? {
      assert rs + ([r] + rest.value) == rs + [r] + rest.value;
    }
  }

  /** loadProfilesFromCSV's loop from line i on: one record per line until a
      number fails to parse, which ends the list; None where a missing column
      throws out of the method. */
  function LoadFrom(ps: seq<LineResult>, i: nat): Option<seq<Record>>
    requires i <= |ps|
    decreases |ps| - i
  {
    if i == |ps| then Some([])
    else
      match ps[i]
      case Missing => None
      case BadNumber => Some([])
      case Parsed(r) => Prefixed([r], LoadFrom(ps, i + 1))
  }

  /** The lines of the file, none when there is no file. */
  function Body(file: Option<seq<string>>): seq<string> {
    if file.None? then [] else file.value
  }

  /** The records loadProfilesFromCSV reads from the file's lines, the first
      being skipped as the header. */
  function LoadRecords(lines: seq<string>): Option<seq<Record>> {
    if lines == [] then Some([]) else LoadFrom(Parses(lines), 1)
  }

  /** The records read are those of the lines from i on, parsed in order;
      reading stops only at a line with a bad number or at the end. */
  lemma {:induction false} LoadFromRead(ps: seq<LineResult>, i: nat)
    requires i <= |ps|
    ensures LoadFrom(ps, i).Some? ==>
      var rs := LoadFrom(ps, i).value;
      i + |rs| <= |ps| &&
      (forall k :: i <= k < i + |rs| ==> ps[k] == Parsed(rs[k - i])) &&
      (i + |rs| < |ps| ==> ps[i + |rs|] == BadNumber)
    decreases |ps| - i
  {
    if i < |ps| && ps[i].Parsed? {
      LoadFromRead(ps, i + 1);
    }
  }

  /** Reading throws exactly when a line with a missing column comes before
      any bad number. */
  lemma {:induction false} LoadFromThrows(ps: seq<LineResult>, i: nat)
    requires i <= |ps|
    ensures LoadFrom(ps, i).None? <==>
      exists j :: i <= j < |ps| && ps[j] == Missing && forall k :: i <= k < j ==> ps[k].Parsed?
    decreases |ps| - i
  {
    if LoadFrom(ps, i).None? {
      if ps[i] == Missing {
        assert i <= i < |ps| && ps[i] == Missing;
      } else {
        LoadFromThrows(ps, i + 1);
        var j :| i + 1 <= j < |ps| && ps[j] == Missing && forall k :: i + 1 <= k < j ==> ps[k].Parsed?;
        assert forall k :: i <= k < j ==> ps[k].Parsed?;
      }
    } else {
      LoadFromRead(ps, i);
      var n := |LoadFrom(ps, i).value|;
      forall j | i <= j < |ps| && ps[j] == Missing
        ensures exists k :: i <= k < j && !ps[k].Parsed?
      {
        assert i + n < j && !ps[i + n].Parsed?;
      }
    }
  }

  /** A name String.trim leaves alone and that holds no comma survives the
      round trip through the file. */
  predicate PlainName(name: string) {
    ',' !in name && Trim(name) == name
  }

  /** The line createNewProfile writes for a plain name reads back as the
      same record. */
  lemma RecordLineReadsBack(r: Record)
    requires PlainName(r.name)
    ensures ParseLine(RecordLine(r)) == Parsed(r)
  {
    var w, l, d := IntToString(r.wins as int), IntToString(r.losses as int), IntToString(r.draws as int);
    IntToStringPlain(r.wins as int);
    IntToStringPlain(r.losses as int);
    IntToStringPlain(r.draws as int);
    assert RecordLine(r) == r.name + [','] + w + [','] + l + [','] + d;
    SplitJoin4(r.name, w, l, d, ',');
    ParseIntToString(r.wins);
    ParseIntToString(r.losses);
    ParseIntToString(r.draws);
  }

  /** Reading lines that all parse, with one more parsed line after them,
      reads that line's record last. */
  lemma {:induction false} LoadFromAppended(ps: seq<LineResult>, r: Record, i: nat)
    requires i <= |ps|
    requires forall k :: i <= k < |ps| ==> ps[k].Parsed?
    ensures LoadFrom(ps, i).Some?
    ensures LoadFrom(ps + [Parsed(r)], i) == Some(LoadFrom(ps, i).value + [r])
    decreases |ps| - i
  {
    var qs := ps + [Parsed(r)];
    if i == |ps| {
      assert qs[i] == Parsed(r);
      assert LoadFrom(qs, i + 1) == Some([]);
      assert [r] + [] == [] + [r];
    } else {
      assert qs[i] == ps[i];
      LoadFromAppended(ps, r, i + 1);
      assert [ps[i].record] + (LoadFrom(ps, i + 1).value + [r]) == [ps[i].record] + LoadFrom(ps, i + 1).value + [r];
    }
  }

  /** A record appended by createNewProfile after a header and lines that
      all parse is read back last. */
  lemma LoadAppended(lines: seq<string>, r: Record)
    requires PlainName(r.name)
    requires |lines| >= 1
    requires forall k :: 1 <= k < |lines| ==> ParseLine(lines[k]).Parsed?
    ensures LoadRecords(lines).Some?
    ensures LoadRecords(lines + [RecordLine(r)]) == Some(LoadRecords(lines).value + [r])
  {
    RecordLineReadsBack(r);
    var ps := Parses(lines);
    assert (lines + [RecordLine(r)])[..|lines|] == lines;
    assert Parses(lines + [RecordLine(r)]) == ps + [Parsed(r)];
    forall k | 1 <= k < |ps|
      ensures ps[k].Parsed?
    {
      ParsesAt(lines, k);
    }
    LoadFromAppended(ps, r, 1);
  }

  /** On a missing file the constructor writes no header (findRow reads no
      line and answers 0), so the first profile created there becomes the
      header line and is not read back. */
  lemma FirstRecordInNewFileIsSkipped(r: Record)
    ensures HeaderRule(None) == Some(None)
    ensures LoadRecords([RecordLine(r)]) == Some([])
  {
  }

  // ---------------------------------------------------------------------------
  // Profile
  // ---------------------------------------------------------------------------

  class Profile {
    var name: string
    var wins: int32
    var losses: int32
    var draws: int32

    /** The field initialisers: an empty name and no games. */
    constructor Blank()
      ensures name == "" && wins == 0 && losses == 0 && draws == 0
    {
      name := "";
      wins := 0;
      losses := 0;
      draws := 0;
    }

    function View(): Record
      reads this
    {
      Record(name, wins, losses, draws)
    }

    /** new Profile(): the field initialisers, then the header rule on the
        file; null where findRow throws out of the constructor. */
    static method New(file: CsvFile) returns (p: Profile?)
      modifies file
      ensures p == null <==> HeaderRule(old(file.lines)).None?
      ensures p == null ==> file.lines == old(file.lines)
      ensures p != null ==> (fresh(p) && p.View() == Record("", 0, 0, 0) &&
        file.lines == HeaderRule(old(file.lines)).value)
    {
      var row := FindRow(file, "Name");
      if row.None? {
        return null;
      }
      if row.value != 0 {
        file.lines := Some([Header]);
      }
      p := new Profile.Blank();
    }

    function GetName(): (n: string)
      reads this
      ensures n == name
    {
      name
    }

    method SetName(name: string)
      modifies `name
      ensures this.name == name
    {
      this.name := name;
    }

    function GetWins(): (n: int32)
      reads this
      ensures n == wins
    {
      wins
    }

    method SetWins(wins: int32)
      modifies `wins
      ensures this.wins == wins
    {
      this.wins := wins;
    }

    function GetLosses(): (n: int32)
      reads this
      ensures n == losses
    {
      losses
    }

    method SetLosses(losses: int32)
      modifies `losses
      ensures this.losses == losses
    {
      this.losses := losses;
    }

    function GetDraws(): (n: int32)
      reads this
      ensures n == draws
    {
      draws
    }

    method SetDraws(draws: int32)
      modifies `draws
      ensures this.draws == draws
    {
      this.draws := draws;
    }

    /** createNewProfile(name): append the line for `name` with this
        profile's counts, creating the file if need be; earlier lines stay. */
    method CreateNewProfile(file: CsvFile, name: string)
      modifies file
      ensures file.lines == Some(
        (if old(file.lines).None? then [] else old(file.lines).value) + [RecordLine(Record(name, wins, losses, draws))])
    {
      var line := name + "," + IntToString(wins as int) + "," + IntToString(losses as int) + "," + IntToString(draws as int);
      var before := if file.lines.None? then [] else file.lines.value;
      file.lines := Some(before + [line]);
    }
  }

  /** The body of loadProfilesFromCSV's loop once a line has parsed:
      `new Profile()`, then the four setters.  The file is as it was when
      loading began, or as an earlier constructor left it, which the header
      rule leaves alone. */
  method ReadProfile(file: CsvFile, record: Record, ghost original: Option<seq<string>>) returns (p: Profile?)
    requires file.lines == original || (HeaderRule(original).Some? && file.lines == HeaderRule(original).value)
    modifies file
    ensures p == null <==> HeaderRule(original).None?
    ensures p == null ==> file.lines == old(file.lines)
    ensures p != null ==> (fresh(p) && p.View() == record && file.lines == HeaderRule(original).value)
  {
    if file.lines != original {
      HeaderRuleIdempotent(original);
    }
    p := Profile.New(file);
    if p == null {
      return;
    }
    p.SetName(record.name);
    p.SetWins(record.wins);
    p.SetLosses(record.losses);
    p.SetDraws(record.draws);
  }

  /** loadProfilesFromCSV, reading the lines the file held when it was
      opened.  None where an exception leaves the method: a missing column,
      or findRow in the constructor of the first profile.  Each profile is
      built by `new Profile()`, so the first one applies the header rule to
      the file. */
  method LoadProfilesFromCSV(file: CsvFile) returns (r: Option<seq<Profile>>)
    modifies file
    ensures old(file.lines).None? ==> r == Some([]) && file.lines == old(file.lines)
    ensures var rs := LoadRecords(Body(old(file.lines)));
      r.None? <==> rs.None? || (|rs.value| > 0 && HeaderRule(old(file.lines)).None?)
    ensures var rs := LoadRecords(Body(old(file.lines)));
      r.Some? ==> (rs.Some? && |r.value| == |rs.value| &&
        (forall k :: 0 <= k < |r.value| ==> fresh(r.value[k]) && r.value[k].View() == rs.value[k]) &&
        file.lines == if |rs.value| > 0 then HeaderRule(old(file.lines)).value else old(file.lines))
    ensures file.lines == old(file.lines) ||
      (HeaderRule(old(file.lines)).Some? && file.lines == HeaderRule(old(file.lines)).value)
  {
    if file.lines.None? || file.lines.value == [] {
      return Some([]);
    }
    var lines := file.lines.value;
    ghost var original := file.lines;
    ghost var ps := Parses(lines);
    ParsesAll(lines);
    assert LoadRecords(Body(original)) == LoadFrom(ps, 1);
    var profiles: seq<Profile> := [];
    ghost var records: seq<Record> := [];
    var i := 1;
    PrefixedNothing(LoadFrom(ps, 1));
    while i < |lines|
      invariant 1 <= i <= |lines|
      invariant |profiles| == |records| == i - 1
      invariant forall k :: 0 <= k < |profiles| ==> fresh(profiles[k]) && profiles[k].View() == records[k]
      invariant LoadFrom(ps, 1) == Prefixed(records, LoadFrom(ps, i))
      invariant i > 1 ==> HeaderRule(original).Some?
      invariant file.lines == if i > 1 then HeaderRule(original).value else original
      decreases |lines| - i
    {
      var line := ParseLine(lines[i]);
      assert line == ps[i];
      if line.Missing? {
        assert LoadFrom(ps, 1) == None;
        return None;
      }
      if line.BadNumber? {
        PrefixedEnd(records);
        break;
      }
      var profile := ReadProfile(file, line.record, original);
      if profile == null {
        assert i == 1 && HeaderRule(original).None?;
        assert LoadFrom(ps, 1).None? || |LoadFrom(ps, 1).value| > 0;
        return None;
      }
      PrefixedTwice(records, line.record, LoadFrom(ps, i + 1));
      assert forall k :: 0 <= k < |profiles| ==> profiles[k].View() == records[k];
      profiles := profiles + [profile];
      records := records + [line.record];
      i := i + 1;
    }
    PrefixedEnd(records);
    assert LoadFrom(ps, 1) == Some(records);
    return Some(profiles);
  }
}
