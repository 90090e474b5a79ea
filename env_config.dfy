/** The configuration helpers of the services: required environment
    variables, the comma-separated broker list, and TTLs written as Go
    durations or as a whole number of days. The auth-service, the older auth
    service and the link-service carry identical copies of these helpers. */
module EnvConfig {
  import opened Wrappers
  import opened GoStrings
  import opened GoTime
  import opened Seqs

  /** The process environment: a variable is either set (possibly to "") or absent. */
  type Env = map<string, string>

  /** A `panic` raised while loading the configuration. */
  datatype Panic = MissingEnv(key: string)

  datatype DbConfig = DbConfig(host: string, port: string, user: string, password: string, name: string, sslMode: string)

  datatype JwtConfig = JwtConfig(access: string, accessExp: Duration, refresh: string, refreshExp: Duration)

  /** `getEnv`: the value of a required variable; a missing one panics. A
      variable set to the empty string counts as present. */
  function GetEnv(env: Env, key: string): (r: Result<string, Panic>)
    ensures r.Ok? <==> key in env
    ensures r.Ok? ==> r.value == env[key]
    ensures r.Err? ==> r.error == MissingEnv(key)
  {
    if key in env then Ok(env[key]) else Err(MissingEnv(key))
  }

  /** `os.Getenv`: an absent variable reads as the empty string. */
  function OptionalEnv(env: Env, key: string): string {
    if key in env then env[key] else ""
  }

  /** Are all the `keys` set in `env`? */
  predicate AllPresent(env: Env, keys: seq<string>) {
    forall i :: 0 <= i < |keys| ==> keys[i] in env
  }

  /** The first of the `keys` that is not set in `env`. */
  function FirstMissing(env: Env, keys: seq<string>): (k: string)
    requires !AllPresent(env, keys)
    ensures k in keys && k !in env
  {
    if keys[0] !in env then keys[0] else FirstMissing(env, keys[1..])
  }

  /** A run of `getEnv` calls: the values of `keys` in order, or the panic of
      the first one that is missing. */
  function GetAll(env: Env, keys: seq<string>): (r: Result<seq<string>, Panic>)
    ensures r.Ok? <==> AllPresent(env, keys)
    ensures r.Ok? ==> |r.value| == |keys| && forall i :: 0 <= i < |keys| ==> r.value[i] == env[keys[i]]
    ensures r.Err? ==> r.error == MissingEnv(FirstMissing(env, keys))
  {
    if keys == [] then Ok([])
    else
      var v :- GetEnv(env, keys[0]);
      var rest :- GetAll(env, keys[1..]);
      Ok([v] + rest)
  }

  // ---------------------------------------------------------------------
  // parseDurationWithDays

  const Day: nat := 24 * Hour

  /** `parseDurationWithDays` as written: "<n>d" is read as `n` hours by
      `time.ParseDuration` and then multiplied by 24 in `time.Duration`, an
      `int64` that wraps around; any parse error gives 0. */
  function ParseDurationWithDaysAsWritten(s: string): (r: Duration)
    ensures IsInt64(r)
  {
    if HasSuffix(s, "d") then
      match ParseDuration(TrimSuffix(s, "d") + "h")
      case None => 0
      case Some(days) => Wrap64(24 * days)
    else
      match ParseDuration(s)
      case None => 0
      case Some(d) => d
  }

  /** `parseDurationWithDays` with the day count applied without wrap-around:
      a number of days too large for a `time.Duration` is a parse error like
      any other, and gives 0. */
  function ParseDurationWithDays(s: string): (r: Duration)
    ensures IsInt64(r)
  {
    if HasSuffix(s, "d") then
      match ParseDuration(TrimSuffix(s, "d") + "h")
      case None => 0
      case Some(days) => if IsInt64(24 * days) then 24 * days else 0
    else
      match ParseDuration(s)
      case None => 0
      case Some(d) => d
  }

  lemma TrimDaySuffix(p: string)
    ensures HasSuffix(p + "d", "d") && TrimSuffix(p + "d", "d") == p
  {
    assert (p + "d")[..|p|] == p;
  }

  /** "<p>d" is read as `24` times the hours "<p>h" denotes. */
  lemma DaysFromHours(p: string)
    ensures ParseDurationWithDays(p + "d")
      == match ParseDuration(p + "h") case None => 0 case Some(h) => if IsInt64(24 * h) then 24 * h else 0
    ensures ParseDurationWithDaysAsWritten(p + "d")
      == match ParseDuration(p + "h") case None => 0 case Some(h) => Wrap64(24 * h)
  {
    TrimDaySuffix(p);
  }

  /** "<n>d" is exactly `n` days, or 0 when that many days do not fit an `int64`. */
  lemma ParseDays(n: nat)
    ensures ParseDurationWithDays(NatToString(n) + "d") == if n * Day <= MaxInt64 then n * Day else 0
  {
    DaysFromHours(NatToString(n));
    ParseHours(n);
    DayArithmetic(n);
  }

  lemma DayArithmetic(n: nat)
    ensures n * Day == 24 * (n * Hour)
    ensures n * Hour > MaxInt64 ==> n * Day > MaxInt64
  {
  }

  /** A TTL that is not written with a leading minus is never negative. */
  lemma ParseDurationWithDaysNonNegative(s: string)
    requires s == [] || s[0] != '-'
    ensures ParseDurationWithDays(s) >= 0
  {
    if HasSuffix(s, "d") {
      var t := TrimSuffix(s, "d") + "h";
      assert t[0] != '-' by {
        if TrimSuffix(s, "d") != [] {
          assert t[0] == s[0];
        }
      }
    }
  }

  /** Wherever the day count fits, the two readings agree. */
  lemma ParseDurationWithDaysAgrees(s: string)
    requires !HasSuffix(s, "d") || ParseDuration(TrimSuffix(s, "d") + "h").None?
      || IsInt64(24 * ParseDuration(TrimSuffix(s, "d") + "h").value)
    ensures ParseDurationWithDaysAsWritten(s) == ParseDurationWithDays(s)
  {
  }

  /** As written, "<n>d" is `24 * n` hours wrapped to an `int64`, or 0 when
      `n` hours alone do not fit. */
  lemma ParseDaysAsWritten(n: nat)
    ensures ParseDurationWithDaysAsWritten(NatToString(n) + "d")
      == if n * Hour <= MaxInt64 then Wrap64(n * Day) else 0
  {
    DaysFromHours(NatToString(n));
    ParseHours(n);
    DayArithmetic(n);
  }

  /** The as-written reading turns 106752 days, a TTL that does not fit an
      `int64`, into a large negative duration; the corrected one gives 0. */
  lemma DaysWrapAround()
    ensures ParseDurationWithDaysAsWritten("106752d") == -9223371273709551616
    ensures ParseDurationWithDays("106752d") == 0
  {
    ParseDaysAsWritten(106752);
    ParseDays(106752);
    Numeral106752();
    Days106752();
  }

  /** 106752 days: the hours fit an `int64`, the nanoseconds do not. */
  lemma Days106752()
    ensures 106752 * Hour <= MaxInt64 && 106752 * Day > MaxInt64
    ensures Wrap64(106752 * Day) == -9223371273709551616
  {
    var x := 106752 * Day;
    assert x == 9223372800000000000;
  }

  lemma Numeral106752()
    ensures NatToString(106752) + "d" == "106752d"
  {
    assert NatToString(1) == "1";
    assert NatToString(10) == "10";
    assert NatToString(106) == "106";
    assert NatToString(1067) == "1067";
    assert NatToString(10675) == "10675";
    assert NatToString(106752) == "106752";
  }

  // ---------------------------------------------------------------------
  // splitAndTrim

  /** A piece after trimming: kept when something is left. */
  function Keep(p: string): (r: seq<string>)
    ensures |r| <= 1
  {
    if TrimSpace(p) != "" then [TrimSpace(p)] else []
  }

  /** The trimmed, non-empty pieces, in order. */
  function Cleaned(parts: seq<string>): (r: seq<string>)
    ensures |r| <= |parts|
  {
    if parts == [] then [] else Keep(parts[0]) + Cleaned(parts[1..])
  }

  /** What `splitAndTrim` returns: nil (None) for the empty string, otherwise
      the cleaned comma-separated pieces (possibly none at all). */
  function SplitAndTrimSpec(s: string): Option<seq<string>> {
    if s == "" then None else Some(Cleaned(Split(s, ',')))
  }

  lemma {:induction false} CleanedAppend(a: seq<string>, b: seq<string>)
    ensures Cleaned(a + b) == Cleaned(a) + Cleaned(b)
  {
    if a == [] {
      assert a + b == b;
    } else {
      assert (a + b)[0] == a[0];
      assert (a + b)[1..] == a[1..] + b;
      CleanedAppend(a[1..], b);
      calc {
        Cleaned(a + b);
        Keep(a[0]) + Cleaned(a[1..] + b);
        Keep(a[0]) + (Cleaned(a[1..]) + Cleaned(b));
        Cleaned(a) + Cleaned(b);
      }
    }
  }

  lemma CleanedStep(pieces: seq<string>, i: nat)
    requires i < |pieces|
    ensures Cleaned(pieces[..i + 1]) == Cleaned(pieces[..i]) + Keep(pieces[i])
  {
    TakeSnoc(pieces, i);
    CleanedAppend(pieces[..i], [pieces[i]]);
    assert [pieces[i]][1..] == [];
  }

  /** `splitAndTrim` */
  method SplitAndTrim(s: string) returns (r: Option<seq<string>>)
    ensures r == SplitAndTrimSpec(s)
  {
    if s == "" {
      return None;
    }
    var pieces := Split(s, ',');
    var parts := TrimPieces(pieces);
    return Some(parts);
  }

  /** The loop of `splitAndTrim`: trim each piece and keep the non-empty ones. */
  method TrimPieces(pieces: seq<string>) returns (parts: seq<string>)
    ensures parts == Cleaned(pieces)
  {
    parts := [];
    var i := 0;
    while i < |pieces|
      invariant 0 <= i <= |pieces|
      invariant parts == Cleaned(pieces[..i])
    {
      var pt := TrimSpace(pieces[i]);
      CleanedStep(pieces, i);
      if pt != "" {
        parts := parts + [pt];
      }
      i := i + 1;
    }
    assert pieces[..i] == pieces;
  }

  /** Every element is non-empty and trimmed, and is the trimmed form of a piece of the input. */
  lemma {:induction false} CleanedElements(parts: seq<string>)
    ensures forall x :: x in Cleaned(parts) ==> x != "" && IsTrimmed(x)
    ensures forall x :: x in Cleaned(parts) ==> exists k :: 0 <= k < |parts| && TrimSpace(parts[k]) == x
  {
    if parts != [] {
      var tail := parts[1..];
      CleanedElements(tail);
      forall x | x in Cleaned(parts)
        ensures x != "" && IsTrimmed(x)
        ensures exists k :: 0 <= k < |parts| && TrimSpace(parts[k]) == x
      {
        if x in Keep(parts[0]) {
          assert TrimSpace(parts[0]) == x;
        } else {
          assert x in Cleaned(tail);
          var k :| 0 <= k < |tail| && TrimSpace(tail[k]) == x;
          assert parts[k + 1] == tail[k];
        }
      }
    }
  }

  /** Pieces that are all white space contribute nothing: a list of only
      commas and blanks cleans to the empty list (not to nil). */
  lemma {:induction false} CleanedBlank(parts: seq<string>)
    requires forall p :: p in parts ==> AllSpace(p)
    ensures Cleaned(parts) == []
  {
    if parts != [] {
      TrimSpaceEmpty(parts[0]);
      CleanedBlank(parts[1..]);
    }
  }

  /** Pieces already trimmed and non-empty are kept as they are. */
  lemma {:induction false} CleanedClean(parts: seq<string>)
    requires forall k :: 0 <= k < |parts| ==> parts[k] != "" && IsTrimmed(parts[k])
    ensures Cleaned(parts) == parts
  {
    if parts != [] {
      var tail := parts[1..];
      assert parts == [parts[0]] + tail;
      TrimSpaceOfTrimmed(parts[0]);
      assert Keep(parts[0]) == [parts[0]];
      assert forall k :: 0 <= k < |tail| ==> tail[k] == parts[k + 1];
      CleanedClean(tail);
    }
  }

  /** Joining trimmed, non-empty, comma-free names with commas and splitting
      them again gives the names back. */
  lemma SplitAndTrimJoin(names: seq<string>)
    requires |names| >= 1
    requires forall k :: 0 <= k < |names| ==> names[k] != "" && IsTrimmed(names[k]) && ',' !in names[k]
    ensures SplitAndTrimSpec(Join(names, ',')) == Some(names)
  {
    SplitJoin(names, ',');
    CleanedClean(names);
    JoinNonEmpty(names, ',');
  }

  lemma JoinNonEmpty(parts: seq<string>, sep: char)
    requires |parts| >= 1 && parts[0] != ""
    ensures Join(parts, sep) != ""
  {
  }
}
