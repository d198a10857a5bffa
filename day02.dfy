/** Day 2 (password philosophy): password policies and their two readings. */
module Day2 {
  import opened Wrappers
  import opened Text

  /** `PasswordPolicy`: an inclusive range `lo ..= hi` and a character. */
  datatype Policy = Policy(lo: nat, hi: nat, ch: char)

  predicate IsSeparator(c: char) {
    c == '-' || c == ':' || c == ' '
  }

  /** `str::split` on the three separators, keeping empty pieces. */
  function Split(s: string): (r: seq<string>)
    ensures |r| >= 1
    ensures forall k :: 0 <= k < |r| ==> forall j :: 0 <= j < |r[k]| ==> !IsSeparator(r[k][j])
  {
    if s == [] then [""]
    else
      var rest := Split(s[1..]);
      if IsSeparator(s[0]) then [""] + rest else [[s[0]] + rest[0]] + rest[1..]
  }

  /** `.filter(|s| !s.is_empty())`. */
  function DropEmpty(pieces: seq<string>): (r: seq<string>)
    ensures forall k :: 0 <= k < |r| ==> r[k] in pieces && r[k] != []
  {
    if pieces == [] then []
    else if pieces[0] == [] then DropEmpty(pieces[1..])
    else [pieces[0]] + DropEmpty(pieces[1..])
  }

  function Concat(pieces: seq<string>): string {
    if pieces == [] then [] else pieces[0] + Concat(pieces[1..])
  }

  /** The characters of `s` that are not separators, in order. */
  function Kept(s: string): string {
    if s == [] then [] else (if IsSeparator(s[0]) then [] else [s[0]]) + Kept(s[1..])
  }

  /** The identifiers `parse` reads: non-empty, separator-free, and together exactly the non-separator text. */
  function Identifiers(line: string): (r: seq<string>)
    ensures forall k :: 0 <= k < |r| ==> r[k] != [] && forall j :: 0 <= j < |r[k]| ==> !IsSeparator(r[k][j])
    ensures Concat(r) == Kept(line)
  {
    SplitKeepsText(line);
    DropEmptyConcat(Split(line));
    DropEmpty(Split(line))
  }

  lemma {:induction false} SplitKeepsText(s: string)
    ensures Concat(Split(s)) == Kept(s)
  {
    if s != [] {
      SplitKeepsText(s[1..]);
      var rest := Split(s[1..]);
      if !IsSeparator(s[0]) {
        assert Concat(Split(s)) == [s[0]] + rest[0] + Concat(rest[1..]);
        assert Concat(rest) == rest[0] + Concat(rest[1..]);
      }
    }
  }

  lemma {:induction false} DropEmptyConcat(pieces: seq<string>)
    ensures Concat(DropEmpty(pieces)) == Concat(pieces)
  {
    if pieces != [] {
      DropEmptyConcat(pieces[1..]);
    }
  }

  /**
   * `parse`: min, max, the policy character and the password; `None` where the Rust
   * `unwrap`s panic (fewer than four identifiers, a bad number, a character piece that
   * is not exactly one character). Identifiers past the fourth are ignored.
   */
  function Parse(line: string): (r: Option<(Policy, string)>)
    ensures r.Some? <==> (|Identifiers(line)| >= 4 &&
      ParseUnsigned(Identifiers(line)[0]).Some? && ParseUnsigned(Identifiers(line)[1]).Some? &&
      |Identifiers(line)[2]| == 1)
    ensures r.Some? ==> |Identifiers(line)| >= 4 && r.value.1 == Identifiers(line)[3]
    ensures r.Some? ==> [r.value.0.ch] == Identifiers(line)[2]
    ensures r.Some? ==> Some(r.value.0.lo) == ParseUnsigned(Identifiers(line)[0])
    ensures r.Some? ==> Some(r.value.0.hi) == ParseUnsigned(Identifiers(line)[1])
  {
    var ids := Identifiers(line);
    if |ids| < 4 then None
    else
      match (ParseUnsigned(ids[0]), ParseUnsigned(ids[1]))
      case (Some(lo), Some(hi)) =>
        if |ids[2]| == 1 then Some((Policy(lo, hi, ids[2][0]), ids[3])) else None
      case _ => None
  }

  /** `is_valid_password`: the number of occurrences of the character lies in `lo ..= hi`. */
  function IsValidPassword(policy: Policy, password: string): (b: bool)
    ensures b <==> policy.lo <= multiset(password)[policy.ch] <= policy.hi
  {
    policy.lo <= Count(password, policy.ch) <= policy.hi
  }

  /**
   * `is_valid_password2`: exactly one of the 1-based positions `lo` and `hi` holds the
   * character; `None` where indexing panics (a position 0 or past the end).
   */
  function IsValidPassword2(policy: Policy, password: string): (r: Option<bool>)
    ensures r.None? <==> !(1 <= policy.lo <= |password| && 1 <= policy.hi <= |password|)
    ensures r.Some? ==> (r.value <==> Count([password[policy.lo - 1], password[policy.hi - 1]], policy.ch) == 1)
  {
    if 1 <= policy.lo <= |password| && 1 <= policy.hi <= |password| then
      Some((password[policy.lo - 1] == policy.ch) != (password[policy.hi - 1] == policy.ch))
    else
      None
  }
}
