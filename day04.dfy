/** Day 4 (passport processing): passports read from blank-line separated records, and their validators. */
module Day4 {
  import opened Wrappers
  import opened Text

  /** The eight passport fields, in the order the record declares them. */
  datatype Key = Byr | Iyr | Eyr | Hgt | Hcl | Ecl | Pid | Cid

  /** `Passport`: each field holds the text after its key, or nothing when the record lacks it. */
  datatype Passport = Passport(
    byr: Option<string>, iyr: Option<string>, eyr: Option<string>, hgt: Option<string>,
    hcl: Option<string>, ecl: Option<string>, pid: Option<string>, cid: Option<string>)

  /** `Passport::default()`. */
  const Blank := Passport(None, None, None, None, None, None, None, None)

  function Name(k: Key): string {
    match k
    case Byr => "byr" case Iyr => "iyr" case Eyr => "eyr" case Hgt => "hgt"
    case Hcl => "hcl" case Ecl => "ecl" case Pid => "pid" case Cid => "cid"
  }

  /** The key a field name selects; `None` for a name that `parse_passwords` rejects with a panic. */
  function KeyOf(s: string): (r: Option<Key>)
    ensures r.Some? ==> Name(r.value) == s
    ensures r.None? ==> forall k: Key :: Name(k) != s
  {
    if s == "byr" then Some(Byr) else if s == "iyr" then Some(Iyr)
    else if s == "eyr" then Some(Eyr) else if s == "hgt" then Some(Hgt)
    else if s == "hcl" then Some(Hcl) else if s == "ecl" then Some(Ecl)
    else if s == "pid" then Some(Pid) else if s == "cid" then Some(Cid)
    else None
  }

  function Get(p: Passport, k: Key): Option<string> {
    match k
    case Byr => p.byr case Iyr => p.iyr case Eyr => p.eyr case Hgt => p.hgt
    case Hcl => p.hcl case Ecl => p.ecl case Pid => p.pid case Cid => p.cid
  }

  /** One `passport.k = Some(value)` assignment: field `k` takes `v`, every other field is kept. */
  function Set(p: Passport, k: Key, v: string): (q: Passport)
    ensures Get(q, k) == Some(v)
    ensures forall k' :: k' != k ==> Get(q, k') == Get(p, k')
  {
    match k
    case Byr => p.(byr := Some(v)) case Iyr => p.(iyr := Some(v))
    case Eyr => p.(eyr := Some(v)) case Hgt => p.(hgt := Some(v))
    case Hcl => p.(hcl := Some(v)) case Ecl => p.(ecl := Some(v))
    case Pid => p.(pid := Some(v)) case Cid => p.(cid := Some(v))
  }

  /** A `key:value` field that neither `unwrap` nor the key match rejects. */
  predicate WellFormedField(field: string) {
    var parts := SplitOn(field, ':');
    |parts| >= 2 && KeyOf(parts[0]).Some?
  }

  /**
   * One field of a record line: the key is the text before the first ':', the value the
   * text up to the next ':'. `None` where the Rust code panics: no ':' at all (the value
   * `unwrap`) or an unknown key.
   */
  function ApplyField(p: Passport, field: string): (r: Option<Passport>)
    ensures r.Some? <==> WellFormedField(field)
    ensures r.Some? ==> r.value == Set(p, KeyOf(SplitOn(field, ':')[0]).value, SplitOn(field, ':')[1])
  {
    var parts := SplitOn(field, ':');
    if |parts| < 2 then None
    else
      match KeyOf(parts[0])
      case None => None
      case Some(k) => Some(Set(p, k, parts[1]))
  }

  /** The fields of one line applied in order to the current passport. */
  function ApplyFields(p: Passport, fields: seq<string>): Option<Passport> {
    if fields == [] then Some(p)
    else
      match ApplyFields(p, fields[..|fields| - 1])
      case None => None
      case Some(q) => ApplyField(q, fields[|fields| - 1])
  }

  /** A record line is accepted iff every one of its space-separated fields is well formed. */
  lemma {:induction false} ApplyFieldsSome(p: Passport, fields: seq<string>)
    ensures ApplyFields(p, fields).Some? <==> WellFormedFields(fields)
  {
    if fields != [] {
      ApplyFieldsSome(p, fields[..|fields| - 1]);
      ApplyFieldsStep(p, fields);
      WellFormedFieldsStep(fields);
    }
  }

  lemma ApplyFieldsStep(p: Passport, fields: seq<string>)
    requires fields != []
    ensures ApplyFields(p, fields).Some? <==>
      ApplyFields(p, fields[..|fields| - 1]).Some? && WellFormedField(fields[|fields| - 1])
  {
  }

  lemma WellFormedFieldsStep(fields: seq<string>)
    requires fields != []
    ensures WellFormedFields(fields) <==>
      WellFormedFields(fields[..|fields| - 1]) && WellFormedField(fields[|fields| - 1])
  {
    var init := fields[..|fields| - 1];
    assert forall j :: 0 <= j < |init| ==> init[j] == fields[j];
  }

  /** Once a field is rejected, the rest of the line cannot bring the passport back. */
  lemma {:induction false} ApplyFieldsStuck(p: Passport, fields: seq<string>, j: nat)
    requires j <= |fields| && ApplyFields(p, fields[..j]) == None
    ensures ApplyFields(p, fields) == None
    decreases |fields| - j
  {
    if j < |fields| {
      assert fields[..j + 1][..j] == fields[..j];
      ApplyFieldsStuck(p, fields, j + 1);
    } else {
      assert fields[..j] == fields;
    }
  }

  /** A non-empty line adds its fields to the last passport; an empty line opens a new passport. */
  predicate WellFormedLine(line: string) {
    line == [] || WellFormedFields(SplitOn(line, ' '))
  }

  predicate WellFormedFields(fields: seq<string>) {
    forall j :: 0 <= j < |fields| ==> WellFormedField(fields[j])
  }

  /**
   * The passports `parse_passwords` returns for the given lines, `None` where it panics.
   * There is one passport more than there are empty lines.
   */
  function Parsed(lines: seq<string>): (r: Option<seq<Passport>>)
    ensures r.Some? ==> |r.value| == 1 + Count(lines, "")
  {
    if lines == [] then Some([Blank])
    else
      var init, line := lines[..|lines| - 1], lines[|lines| - 1];
      match Parsed(init)
      case None => None
      case Some(ps) =>
        if line == [] then Some(ps + [Blank])
        else
          match ApplyFields(ps[|ps| - 1], SplitOn(line, ' '))
          case None => None
          case Some(q) => Some(ps[..|ps| - 1] + [q])
  }

  /** Parsing fails exactly when some non-empty line holds a field that is malformed or has an unknown key. */
  lemma {:induction false} ParsedSome(lines: seq<string>)
    ensures Parsed(lines).Some? <==> WellFormedLines(lines)
  {
    if lines != [] {
      var init, line := lines[..|lines| - 1], lines[|lines| - 1];
      ParsedSome(init);
      ParsedStep(lines);
      WellFormedLinesStep(lines);
    }
  }

  predicate WellFormedLines(lines: seq<string>) {
    forall i :: 0 <= i < |lines| ==> WellFormedLine(lines[i])
  }

  lemma WellFormedLinesStep(lines: seq<string>)
    requires lines != []
    ensures WellFormedLines(lines) <==> WellFormedLines(lines[..|lines| - 1]) && WellFormedLine(lines[|lines| - 1])
  {
    var init := lines[..|lines| - 1];
    assert forall i :: 0 <= i < |init| ==> init[i] == lines[i];
  }

  lemma ParsedStep(lines: seq<string>)
    requires lines != []
    ensures Parsed(lines).Some? <==> Parsed(lines[..|lines| - 1]).Some? && WellFormedLine(lines[|lines| - 1])
  {
    var init, line := lines[..|lines| - 1], lines[|lines| - 1];
    if Parsed(init).Some? && line != [] {
      var ps := Parsed(init).value;
      ApplyFieldsSome(ps[|ps| - 1], SplitOn(line, ' '));
    }
  }

  lemma {:induction false} ParsedStuck(lines: seq<string>, i: nat)
    requires i <= |lines| && Parsed(lines[..i]) == None
    ensures Parsed(lines) == None
    decreases |lines| - i
  {
    if i < |lines| {
      assert lines[..i + 1][..i] == lines[..i];
      ParsedStuck(lines, i + 1);
    } else {
      assert lines[..i] == lines;
    }
  }

  /** The `for field in line.split(' ')` loop: each field updates the passport in place. */
  method ApplyLine(p: Passport, line: string) returns (r: Option<Passport>)
    ensures r == ApplyFields(p, SplitOn(line, ' '))
  {
    r := ApplyEach(p, SplitOn(line, ' '));
  }

  /** The loop body applied to each field in turn; `None` at the first field that fails. */
  method ApplyEach(p: Passport, fields: seq<string>) returns (r: Option<Passport>)
    ensures r == ApplyFields(p, fields)
  {
    var current := p;
    var j := 0;
    while j < |fields|
      invariant 0 <= j <= |fields|
      invariant ApplyFields(p, fields[..j]) == Some(current)
    {
      var next := ApplyField(current, fields[j]);
      assert ApplyFields(p, fields[..j + 1]) == next by {
        assert fields[..j + 1][..j] == fields[..j] && fields[..j + 1][j] == fields[j];
      }
      if next.None? {
        ApplyFieldsStuck(p, fields, j + 1);
        return None;
      }
      current := next.value;
      j := j + 1;
    }
    assert fields[..j] == fields;
    return Some(current);
  }

  /** `parse_passwords`: the loop over the lines, filling in the last passport in place. */
  method ParsePassports(lines: seq<string>) returns (r: Option<seq<Passport>>)
    ensures r == Parsed(lines)
  {
    var passports := [Blank];
    var i := 0;
    while i < |lines|
      invariant 0 <= i <= |lines|
      invariant Parsed(lines[..i]) == Some(passports)
    {
      var line := lines[i];
      ParsedNext(lines, i, passports);
      if line == [] {
        passports := passports + [Blank];
      } else {
        var last := ApplyLine(passports[|passports| - 1], line);
        if last.None? {
          ParsedStuck(lines, i + 1);
          return None;
        }
        passports := passports[..|passports| - 1] + [last.value];
      }
      i := i + 1;
    }
    assert lines[..i] == lines;
    return Some(passports);
  }

  /** One more line: a blank line opens a new passport, any other line updates the last one. */
  lemma ParsedNext(lines: seq<string>, i: nat, ps: seq<Passport>)
    requires i < |lines| && Parsed(lines[..i]) == Some(ps)
    ensures |ps| > 0
    ensures lines[i] == [] ==> Parsed(lines[..i + 1]) == Some(ps + [Blank])
    ensures lines[i] != [] && ApplyFields(ps[|ps| - 1], SplitOn(lines[i], ' ')).None? ==> Parsed(lines[..i + 1]) == None
    ensures lines[i] != [] && ApplyFields(ps[|ps| - 1], SplitOn(lines[i], ' ')).Some? ==>
      Parsed(lines[..i + 1]) == Some(ps[..|ps| - 1] + [ApplyFields(ps[|ps| - 1], SplitOn(lines[i], ' ')).value])
  {
    assert lines[..i + 1][..i] == lines[..i] && lines[..i + 1][i] == lines[i];
  }

  /** `is_valid_date_range`: the regex `^(\d{4})$`, then `parse::<usize>` and the inclusive range check. */
  function IsValidDateRange(s: string, min: nat, max: nat): (b: bool)
    ensures b <==> |s| == 4 && AllDigits(s) && min <= Value(s) <= max
  {
    if |s| == 4 && AllDigits(s) then
      match ParseUnsigned(s)
      case Some(year) => min <= year <= max
      case None =>
        ValueBound(s);
        false
    else false
  }

  /** The captures of `^(\d+)(cm|in)$`: the digits and the unit. */
  function HeightCaptures(s: string): Option<(string, string)> {
    if |s| >= 3 && AllDigits(s[..|s| - 2]) && (s[|s| - 2..] == "cm" || s[|s| - 2..] == "in") then
      Some((s[..|s| - 2], s[|s| - 2..]))
    else None
  }

  /**
   * The height check: digits then "cm" with a value in 150–193, or digits then "in" with a
   * value in 59–76. A digit run too long for `usize` fails to parse, which rejects it as well.
   */
  function IsValidHeight(s: string): (b: bool)
    ensures b <==> (|s| >= 3 && AllDigits(s[..|s| - 2]) &&
      ((s[|s| - 2..] == "cm" && 150 <= Value(s[..|s| - 2]) <= 193) ||
       (s[|s| - 2..] == "in" && 59 <= Value(s[..|s| - 2]) <= 76)))
  {
    match HeightCaptures(s)
    case None => false
    case Some((digits, unit)) =>
      match ParseUnsigned(digits)
      case None => false
      case Some(value) =>
        if unit == "cm" then 150 <= value <= 193 else 59 <= value <= 76
  }

  predicate IsLowerHexDigit(c: char) {
    IsDigit(c) || 'a' <= c <= 'f'
  }

  /** `^#[0-9a-f]{6}$`. */
  function IsValidHairColor(s: string): (b: bool)
    ensures b <==> |s| == 7 && s[0] == '#' && forall i :: 1 <= i < 7 ==> IsLowerHexDigit(s[i])
  {
    |s| == 7 && s[0] == '#' && IsLowerHex(s[1..])
  }

  function IsLowerHex(s: string): (b: bool)
    ensures b <==> forall i :: 0 <= i < |s| ==> IsLowerHexDigit(s[i])
  {
    if s == [] then true else IsLowerHexDigit(s[0]) && IsLowerHex(s[1..])
  }

  /**
   * `^amb|blu|brn|gry|grn|hzl|oth$`: the anchors bind to the first and last alternatives only,
   * so the pattern accepts a text that starts with "amb", ends with "oth", or contains one of
   * the five middle names anywhere.
   */
  function IsValidEyeColor(s: string): bool {
    StartsWith(s, "amb") || Contains(s, "blu") || Contains(s, "brn") || Contains(s, "gry")
    || Contains(s, "grn") || Contains(s, "hzl") || EndsWith(s, "oth")
  }

  /** The seven colour names are accepted. */
  lemma EyeColorNames()
    ensures IsValidEyeColor("amb") && IsValidEyeColor("oth")
    ensures IsValidEyeColor("blu") && IsValidEyeColor("brn") && IsValidEyeColor("gry")
    ensures IsValidEyeColor("grn") && IsValidEyeColor("hzl")
  {
    assert OccursAt("blu", "blu", 0) && OccursAt("brn", "brn", 0) && OccursAt("gry", "gry", 0);
    assert OccursAt("grn", "grn", 0) && OccursAt("hzl", "hzl", 0);
  }

  /** Longer texts around a name pass too: the anchors do not span the whole alternation. */
  lemma EyeColorLoose()
    ensures IsValidEyeColor("ambx") && IsValidEyeColor("xoth") && IsValidEyeColor("xblux")
  {
    assert "ambx"[..3] == "amb" && "xoth"[1..] == "oth";
    assert OccursAt("xblux", "blu", 1);
  }

  /** The anchors still apply to the first and last names: "amb" must lead and "oth" must end. */
  lemma EyeColorAnchored()
    ensures !IsValidEyeColor("xamb") && !IsValidEyeColor("othx")
  {
    assert "xamb"[0] == 'x' && "othx"[3] == 'x';
    NoOccurrence("xamb");
    NoOccurrence("othx");
  }

  lemma NoOccurrence(s: string)
    requires |s| == 4 && s[1] != 'l' && s[1] != 'r' && s[1] != 'z'
    requires s[2] != 'l' && s[2] != 'r' && s[2] != 'z'
    ensures !Contains(s, "blu") && !Contains(s, "brn") && !Contains(s, "gry")
    ensures !Contains(s, "grn") && !Contains(s, "hzl")
  {
    forall p, i | |p| == 3 && p[1] in "lrz" && OccursAt(s, p, i)
      ensures false
    {
    }
    assert "blu"[1] == 'l' && "brn"[1] == 'r' && "gry"[1] == 'r' && "grn"[1] == 'r' && "hzl"[1] == 'z';
  }

  /** `^\d{9}$`. */
  function IsValidPassportId(s: string): (b: bool)
    ensures b <==> |s| == 9 && forall i :: 0 <= i < |s| ==> '0' <= s[i] <= '9'
  {
    |s| == 9 && AllDigits(s)
  }

  /** `required_fields_present`: every field except `cid` is set. */
  function RequiredFieldsPresent(p: Passport): (b: bool)
    ensures b <==> forall k :: k != Cid ==> Get(p, k).Some?
  {
    assert Get(p, Byr) == p.byr && Get(p, Iyr) == p.iyr && Get(p, Eyr) == p.eyr && Get(p, Hgt) == p.hgt;
    assert Get(p, Hcl) == p.hcl && Get(p, Ecl) == p.ecl && Get(p, Pid) == p.pid;
    p.byr.Some? && p.iyr.Some? && p.eyr.Some? && p.hgt.Some? && p.hcl.Some? && p.ecl.Some? && p.pid.Some?
  }

  /**
   * `required_fields_valid`: all required fields are present, the three years are four digits in
   * their ranges, and the height, hair colour, eye colour and passport id pass their checks.
   */
  function RequiredFieldsValid(p: Passport): (b: bool)
    ensures b <==> (RequiredFieldsPresent(p) &&
      |p.byr.value| == 4 && AllDigits(p.byr.value) && 1920 <= Value(p.byr.value) <= 2002 &&
      |p.iyr.value| == 4 && AllDigits(p.iyr.value) && 2010 <= Value(p.iyr.value) <= 2020 &&
      |p.eyr.value| == 4 && AllDigits(p.eyr.value) && 2020 <= Value(p.eyr.value) <= 2030 &&
      IsValidHeight(p.hgt.value) &&
      |p.hcl.value| == 7 && p.hcl.value[0] == '#' && (forall i :: 1 <= i < 7 ==> IsLowerHexDigit(p.hcl.value[i])) &&
      IsValidEyeColor(p.ecl.value) &&
      |p.pid.value| == 9 && AllDigits(p.pid.value))
  {
    if !RequiredFieldsPresent(p) then false
    else if !IsValidDateRange(p.byr.value, 1920, 2002) then false
    else if !IsValidDateRange(p.iyr.value, 2010, 2020) then false
    else if !IsValidDateRange(p.eyr.value, 2020, 2030) then false
    else if !IsValidHeight(p.hgt.value) then false
    else if !IsValidHairColor(p.hcl.value) then false
    else if !IsValidEyeColor(p.ecl.value) then false
    else IsValidPassportId(p.pid.value)
  }

  /** The number of passports that pass `f`: `filter(f).count()`. */
  function CountWhere(ps: seq<Passport>, f: Passport -> bool): (n: nat)
    ensures n <= |ps|
  {
    if ps == [] then 0
    else CountWhere(ps[..|ps| - 1], f) + if f(ps[|ps| - 1]) then 1 else 0
  }

  /** The positions of the passports that pass `f`. */
  ghost function Where(ps: seq<Passport>, f: Passport -> bool): set<nat> {
    set i: nat | i < |ps| && f(ps[i])
  }

  /** `filter(f).count()` is the number of positions holding a passport that passes `f`. */
  lemma {:induction false} CountWhereMeans(ps: seq<Passport>, f: Passport -> bool)
    ensures CountWhere(ps, f) == |Where(ps, f)|
  {
    if ps != [] {
      var n := |ps| - 1;
      CountWhereMeans(ps[..n], f);
      var before := Where(ps[..n], f);
      if f(ps[n]) {
        assert Where(ps, f) == before + {n};
      } else {
        assert Where(ps, f) == before;
      }
    }
  }

  /** Solution 1, `filter(required_fields_present).count()`: the passports with every required field. */
  function CountPresent(ps: seq<Passport>): (n: nat)
    ensures n <= |ps|
  {
    CountWhere(ps, RequiredFieldsPresent)
  }

  /** Solution 2, `filter(required_fields_valid).count()`: the valid passports. */
  function CountValid(ps: seq<Passport>): nat {
    CountWhere(ps, RequiredFieldsValid)
  }

  /** Solution 1 is the number of positions holding a passport with every required field. */
  lemma CountPresentMeans(ps: seq<Passport>)
    ensures CountPresent(ps) == |Where(ps, RequiredFieldsPresent)|
  {
    CountWhereMeans(ps, RequiredFieldsPresent);
  }

  /** Solution 2 is the number of positions holding a valid passport. */
  lemma CountValidMeans(ps: seq<Passport>)
    ensures CountValid(ps) == |Where(ps, RequiredFieldsValid)|
  {
    CountWhereMeans(ps, RequiredFieldsValid);
  }

  /** A stricter test passes no more passports. */
  lemma {:induction false} CountWhereStricter(ps: seq<Passport>, f: Passport -> bool, g: Passport -> bool)
    requires forall p :: f(p) ==> g(p)
    ensures CountWhere(ps, f) <= CountWhere(ps, g)
  {
    if ps != [] {
      CountWhereStricter(ps[..|ps| - 1], f, g);
    }
  }

  /** Solution 2 never exceeds solution 1: every valid passport has its required fields. */
  lemma ValidCountBound(ps: seq<Passport>)
    ensures CountValid(ps) <= CountPresent(ps)
  {
    CountWhereStricter(ps, RequiredFieldsValid, RequiredFieldsPresent);
  }

}
