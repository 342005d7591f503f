/**
 * `Tapper.claim_reward`: the profile's `claimed_at` timestamp is rewritten
 * into a form `datetime.fromisoformat` accepts, and the game reward is
 * claimed when there is no timestamp or the 8-hour cooldown has passed.
 *
 * `datetime.fromisoformat` is a parameter (`fromIso`), giving the instant a
 * string denotes in microseconds since the epoch, or `None` where it raises;
 * `datetime.now(timezone.utc)` is the parameter `now`, in the same unit.
 */
module Claim {
  import opened Wrappers
  import opened Text

  /** The cooldown between two reward claims: 8 hours, in microseconds. */
  const Cooldown: int := 8 * 60 * 60 * 1000000

  /** Digits of the fractional-seconds field after normalisation (at least). */
  const FractionDigits: nat := 6

  /** Python's `s.replace("Z", "+00:00")`. */
  function UtcSuffixed(s: string): (r: string)
    ensures 'Z' !in r
    ensures 'Z' !in s ==> r == s
  {
    Replace(s, 'Z', "+00:00")
  }

  /**
   * The rewrite of `claimed_at`: `Z` becomes `+00:00`, the text must then
   * split into exactly two fields at `.` and its second field into exactly
   * two at `+`, and the fraction is right-padded with `0` to six digits.
   * `None` is the `ValueError` of an unpacking that does not get two fields.
   */
  function NormalizeTimestamp(s: string): (r: Option<string>)
    ensures Count(UtcSuffixed(s), '.') != 1 ==> r.None?
  {
    var halves := Split(UtcSuffixed(s), '.');
    if |halves| != 2 then None
    else
      var tail := Split(halves[1], '+');
      if |tail| != 2 then None
      else Some(halves[0] + "." + LeftJustify(tail[0], FractionDigits, '0') + "+" + tail[1])
  }

  /** Padding with `fill` brings in no character other than `fill`. */
  lemma LeftJustifyKeepsOut(s: string, width: nat, fill: char, d: char)
    requires d !in s && d != fill
    ensures d !in LeftJustify(s, width, fill)
  {
    var r := LeftJustify(s, width, fill);
    forall k | 0 <= k < |r| ensures r[k] != d {
      if k < |s| { assert r[k] == r[..|s|][k]; }
    }
  }

  /**
   * A timestamp that reads `date.fraction+offset` once `Z` is rewritten
   * (with no further `.` anywhere and no further `+` after the `.`) is
   * normalised to `date.padded+offset`, where `padded` is `fraction`
   * right-padded with `0` to six characters.
   */
  lemma NormalizeOfParts(s: string, date: string, fraction: string, offset: string)
    requires UtcSuffixed(s) == date + "." + fraction + "+" + offset
    requires '.' !in date && '.' !in fraction && '.' !in offset
    requires '+' !in fraction && '+' !in offset
    ensures NormalizeTimestamp(s) == Some(date + "." + LeftJustify(fraction, FractionDigits, '0') + "+" + offset)
  {
    var rest := fraction + "+" + offset;
    assert '.' !in rest by {
      forall k | 0 <= k < |rest| ensures rest[k] != '.' {
        if k < |fraction| { assert rest[k] == fraction[k]; }
        else if k > |fraction| { assert rest[k] == offset[k - |fraction| - 1]; }
      }
    }
    assert Join([rest], '.') == rest;
    assert UtcSuffixed(s) == Join([date, rest], '.');
    SplitJoin([date, rest], '.');
    assert Join([offset], '+') == offset;
    assert rest == Join([fraction, offset], '+');
    SplitJoin([fraction, offset], '+');
  }

  /**
   * Conversely, every normalised timestamp has that shape: the pieces come
   * from the input with `Z` rewritten, and only the fraction changes.
   */
  lemma NormalizeShape(s: string) returns (date: string, fraction: string, offset: string)
    requires NormalizeTimestamp(s).Some?
    ensures UtcSuffixed(s) == date + "." + fraction + "+" + offset
    ensures '.' !in date && '.' !in fraction && '.' !in offset
    ensures '+' !in fraction && '+' !in offset
    ensures 'Z' !in date && 'Z' !in fraction && 'Z' !in offset
    ensures NormalizeTimestamp(s).value == date + "." + LeftJustify(fraction, FractionDigits, '0') + "+" + offset
  {
    var z := UtcSuffixed(s);
    var halves := Split(z, '.');
    var tail := Split(halves[1], '+');
    date, fraction, offset := halves[0], tail[0], tail[1];
    SplitKeepsOut(z, '.', 'Z');
    SplitKeepsOut(halves[1], '+', 'Z');
    SplitKeepsOut(halves[1], '+', '.');
    JoinSplit(z, '.');
    JoinSplit(halves[1], '+');
    JoinTwo(halves, '.');
    JoinTwo(tail, '+');
    Regroup(date, fraction, offset);
  }

  lemma JoinTwo(parts: seq<string>, c: char)
    requires |parts| == 2
    ensures Join(parts, c) == parts[0] + [c] + parts[1]
  {
    assert parts[1..] == [parts[1]];
  }

  lemma Regroup(date: string, fraction: string, offset: string)
    ensures date + ['.'] + (fraction + ['+'] + offset) == date + "." + fraction + "+" + offset
  {
  }

  /** Normalising twice changes nothing: a normalised timestamp is a fixed point. */
  lemma NormalizeIdempotent(s: string)
    requires NormalizeTimestamp(s).Some?
    ensures NormalizeTimestamp(NormalizeTimestamp(s).value) == NormalizeTimestamp(s)
  {
    var date, fraction, offset := NormalizeShape(s);
    var padded := LeftJustify(fraction, FractionDigits, '0');
    var x := NormalizeTimestamp(s).value;
    LeftJustifyKeepsOut(fraction, FractionDigits, '0', 'Z');
    LeftJustifyKeepsOut(fraction, FractionDigits, '0', '.');
    LeftJustifyKeepsOut(fraction, FractionDigits, '0', '+');
    assert 'Z' !in x by {
      forall k | 0 <= k < |x| ensures x[k] != 'Z' {
        if k < |date| { assert x[k] == date[k]; }
        else if k == |date| { }
        else if k < |date| + 1 + |padded| { assert x[k] == padded[k - |date| - 1]; }
        else if k == |date| + 1 + |padded| { }
        else { assert x[k] == offset[k - |date| - 2 - |padded|]; }
      }
    }
    NormalizeOfParts(x, date, padded, offset);
    assert LeftJustify(padded, FractionDigits, '0') == padded[..|padded|];
  }

  /** Whether the reward is due, given the profile's `claimed_at`. */
  datatype Decision = Due | NotDue | Malformed

  /**
   * The eligibility test of `claim_reward`: a JSON `null` or empty
   * `claimed_at` is due at once; otherwise the normalised timestamp must
   * parse, and the claim is due only when `now` is strictly later than
   * `claimed_at` plus the cooldown. A timestamp that cannot be normalised
   * or parsed takes the exception path.
   */
  function ClaimDecision(claimedAt: Option<string>, now: int, fromIso: string -> Option<int>): (d: Decision)
    ensures claimedAt.None? || claimedAt == Some("") ==> d == Due
    ensures d == Malformed <==>
      claimedAt.Some? && claimedAt.value != "" &&
      (NormalizeTimestamp(claimedAt.value).None? || fromIso(NormalizeTimestamp(claimedAt.value).value).None?)
    ensures forall stamp, t ::
      claimedAt.Some? && claimedAt.value != "" &&
      NormalizeTimestamp(claimedAt.value) == Some(stamp) && fromIso(stamp) == Some(t) ==>
      (d == Due <==> now > t + Cooldown) && (d == NotDue <==> now <= t + Cooldown)
  {
    if claimedAt.None? || claimedAt.value == "" then Due
    else match NormalizeTimestamp(claimedAt.value)
      case None => Malformed
      case Some(stamp) =>
        match fromIso(stamp)
        case None => Malformed
        case Some(t) => if now > t + Cooldown then Due else NotDue
  }

  /** What `/user/info` returned: its `claimed_at` field (`None` for JSON `null`). */
  datatype Profile = Profile(claimedAt: Option<string>)

  /**
   * One call of `claim_reward`: whether `/game/claim` was posted, and the
   * return value (`Some(true)` claimed, `Some(false)` not due, `None` for
   * the exception path). `info` is `None` when the profile request failed;
   * `accepted` is whether the claim request itself succeeded.
   */
  datatype ClaimReport = ClaimReport(posted: bool, result: Option<bool>)

  function ClaimReward(info: Option<Profile>, now: int, fromIso: string -> Option<int>, accepted: bool): (r: ClaimReport)
    ensures r.posted <==> info.Some? && ClaimDecision(info.value.claimedAt, now, fromIso) == Due
    ensures r.result == Some(true) <==> r.posted && accepted
    ensures r.result == Some(false) <==> info.Some? && ClaimDecision(info.value.claimedAt, now, fromIso) == NotDue
  {
    match info
    case None => ClaimReport(false, None)
    case Some(p) =>
      match ClaimDecision(p.claimedAt, now, fromIso)
      case Malformed => ClaimReport(false, None)
      case NotDue => ClaimReport(false, Some(false))
      case Due => ClaimReport(true, if accepted then Some(true) else None)
  }

  /** A malformed timestamp never leads to a claim, and the call returns `None`. */
  lemma MalformedNeverClaims(claimedAt: string, now: int, fromIso: string -> Option<int>, accepted: bool)
    requires claimedAt != ""
    requires NormalizeTimestamp(claimedAt).None?
    ensures ClaimReward(Some(Profile(Some(claimedAt))), now, fromIso, accepted) == ClaimReport(false, None)
  {
  }

  /**
   * The cooldown boundary for a well-formed timestamp at instant `t`:
   * nine hours later the claim is issued, one hour later it is not, and
   * exactly eight hours later it is not either (the comparison is strict).
   */
  lemma CooldownBoundary(claimedAt: string, fromIso: string -> Option<int>, t: int, accepted: bool)
    requires claimedAt != ""
    requires NormalizeTimestamp(claimedAt).Some? && fromIso(NormalizeTimestamp(claimedAt).value) == Some(t)
    ensures ClaimReward(Some(Profile(Some(claimedAt))), t + 9 * 3600 * 1000000, fromIso, accepted).posted
    ensures !ClaimReward(Some(Profile(Some(claimedAt))), t + 3600 * 1000000, fromIso, accepted).posted
    ensures !ClaimReward(Some(Profile(Some(claimedAt))), t + Cooldown, fromIso, accepted).posted
  {
  }
}
