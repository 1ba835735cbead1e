/**
 Run tokens: `<test type>_<timestamp>_p<pid>-<hex>`. The owning process id is read back
 from the token alone, so a reservation file never has to be opened.
 */
module RunTokens {
  import opened Wrappers

  type Token = string
  type Pid = nat

  predicate IsDigit(c: char) {
    '0' <= c <= '9'
  }

  predicate AllDigits(s: string) {
    forall i :: 0 <= i < |s| ==> IsDigit(s[i])
  }

  /** `int(digits)` */
  function ParseNat(s: string): nat
    requires AllDigits(s)
  {
    if s == "" then 0 else 10 * ParseNat(s[..|s| - 1]) + (s[|s| - 1] as int - '0' as int)
  }

  /** The decimal rendering an f-string gives a process id. */
  function Decimal(n: nat): (s: string)
    ensures s != "" && AllDigits(s)
  {
    var digit := ('0' as int + n % 10) as char;
    if n < 10 then [digit] else Decimal(n / 10) + [digit]
  }

  /** The text after the last occurrence of `c`, as `rpartition` gives it; None without one. */
  function AfterLast(s: string, c: char): Option<string> {
    if s == "" then None
    else if s[|s| - 1] == c then Some("")
    else match AfterLast(s[..|s| - 1], c)
      case None => None
      case Some(rest) => Some(rest + [s[|s| - 1]])
  }

  /** The text before the first occurrence of `c`, or all of it. */
  function BeforeFirst(s: string, c: char): string {
    if s == "" || s[0] == c then "" else [s[0]] + BeforeFirst(s[1..], c)
  }

  function PidFromToken(token: Token): Option<Pid> {
    match AfterLast(token, '_')
    case None => None
    case Some(runId) =>
      if runId == "" || runId[0] != 'p' then None
      else
        var digits := BeforeFirst(runId[1..], '-');
        if digits != "" && AllDigits(digits) then Some(ParseNat(digits)) else None
  }

  /** The token `run_token` composes around the run id that `new_run_id` draws. */
  function MakeToken(stem: string, pid: Pid, hex: string): Token {
    stem + "_p" + Decimal(pid) + "-" + hex
  }

  lemma {:induction false} ParseDecimal(n: nat)
    ensures ParseNat(Decimal(n)) == n
  {
    if n >= 10 {
      ParseDecimal(n / 10);
      assert Decimal(n)[..|Decimal(n)| - 1] == Decimal(n / 10);
    }
  }

  lemma {:induction false} AfterLastOfSuffix(s: string, c: char, rest: string)
    requires c !in rest
    ensures AfterLast(s + [c] + rest, c) == Some(rest)
    decreases |rest|
  {
    var whole := s + [c] + rest;
    if rest != "" {
      var init := rest[..|rest| - 1];
      assert whole[..|whole| - 1] == s + [c] + init;
      AfterLastOfSuffix(s, c, init);
      assert init + [whole[|whole| - 1]] == rest;
    }
  }

  lemma {:induction false} BeforeFirstOfPrefix(s: string, c: char, rest: string)
    requires c !in s
    ensures BeforeFirst(s + [c] + rest, c) == s
    decreases |s|
  {
    var whole := s + [c] + rest;
    if s != "" {
      assert whole[1..] == s[1..] + [c] + rest;
      BeforeFirstOfPrefix(s[1..], c, rest);
    }
  }

  /** The pid written into a token is recovered whatever the stem, underscores included. */
  lemma PidRoundTrip(stem: string, pid: Pid, hex: string)
    requires '_' !in hex
    ensures PidFromToken(MakeToken(stem, pid, hex)) == Some(pid)
  {
    var digits := Decimal(pid);
    var runId := "p" + digits + "-" + hex;
    assert MakeToken(stem, pid, hex) == stem + ['_'] + runId;
    AfterLastOfSuffix(stem, '_', runId);
    assert runId[1..] == digits + ['-'] + hex;
    BeforeFirstOfPrefix(digits, '-', hex);
    ParseDecimal(pid);
  }

  /** Two drivers' runs never share a token: equal tokens carry equal pids. */
  lemma TokensOfDistinctPidsDiffer(stem: string, pid: Pid, hex: string, stem': string, pid': Pid, hex': string)
    requires '_' !in hex && '_' !in hex' && pid != pid'
    ensures MakeToken(stem, pid, hex) != MakeToken(stem', pid', hex')
  {
    PidRoundTrip(stem, pid, hex);
    PidRoundTrip(stem', pid', hex');
  }

  // ----- which tokens carry a pid

  /** The token ends in `_p<digits>` or `_p<digits>-<anything without an underscore>`. */
  predicate IsPidToken(token: Token, stem: string, digits: string, rest: string) {
    && token == stem + ['_'] + ("p" + digits + rest) && '_' !in rest
    && digits != "" && AllDigits(digits) && (rest == "" || rest[0] == '-')
  }

  lemma {:induction false} AfterLastSplits(s: string, c: char) returns (before: string)
    requires AfterLast(s, c).Some?
    ensures s == before + [c] + AfterLast(s, c).value && c !in AfterLast(s, c).value
  {
    var init := s[..|s| - 1];
    if s[|s| - 1] == c {
      before := init;
    } else {
      before := AfterLastSplits(init, c);
    }
  }

  lemma {:induction false} BeforeFirstSplits(s: string, c: char)
    ensures var n := |BeforeFirst(s, c)|; n <= |s| && s == BeforeFirst(s, c) + s[n..] && (n < |s| ==> s[n] == c)
  {
    if s != "" && s[0] != c {
      BeforeFirstSplits(s[1..], c);
    }
  }

  lemma {:induction false} BeforeFirstOfWhole(s: string, c: char)
    requires c !in s
    ensures BeforeFirst(s, c) == s
  {
    if s != "" {
      BeforeFirstOfWhole(s[1..], c);
    }
  }

  lemma DigitsAreRead(digits: string, rest: string)
    requires AllDigits(digits) && (rest == "" || rest[0] == '-')
    ensures BeforeFirst(digits + rest, '-') == digits
  {
    assert '-' !in digits && '_' !in digits;
    if rest == "" {
      BeforeFirstOfWhole(digits, '-');
      assert digits + rest == digits;
    } else {
      BeforeFirstOfPrefix(digits, '-', rest[1..]);
      assert digits + ['-'] + rest[1..] == digits + rest;
    }
  }

  lemma PidTokenIsRead(token: Token, stem: string, digits: string, rest: string)
    requires IsPidToken(token, stem, digits, rest)
    ensures PidFromToken(token) == Some(ParseNat(digits))
  {
    var runId := "p" + digits + rest;
    AfterLastOfSuffix(stem, '_', runId);
    assert runId[1..] == digits + rest;
    DigitsAreRead(digits, rest);
  }

  lemma PidComesFromToken(token: Token) returns (stem: string, digits: string, rest: string)
    requires PidFromToken(token).Some?
    ensures IsPidToken(token, stem, digits, rest)
  {
    stem := AfterLastSplits(token, '_');
    var runId := AfterLast(token, '_').value;
    digits := BeforeFirst(runId[1..], '-');
    BeforeFirstSplits(runId[1..], '-');
    rest := runId[1..][|digits|..];
    assert runId == "p" + digits + rest;
  }

  /** A token carries the pid exactly when it ends in that pid's digits as described, whatever else it holds. */
  lemma PidIsReadExactly(token: Token, pid: Pid)
    ensures PidFromToken(token) == Some(pid) <==>
            exists stem, digits, rest :: IsPidToken(token, stem, digits, rest) && ParseNat(digits) == pid
  {
    forall stem, digits, rest | IsPidToken(token, stem, digits, rest)
      ensures PidFromToken(token) == Some(ParseNat(digits))
    {
      PidTokenIsRead(token, stem, digits, rest);
    }
    if PidFromToken(token).Some? {
      var stem, digits, rest := PidComesFromToken(token);
      PidTokenIsRead(token, stem, digits, rest);
    }
  }

  lemma ParseOneMore(s: string, c: char, n: nat)
    requires AllDigits(s) && IsDigit(c) && ParseNat(s) == n
    ensures AllDigits(s + [c]) && ParseNat(s + [c]) == 10 * n + (c as int - '0' as int)
  {
    assert (s + [c])[..|s|] == s;
  }

  /** The documented example. */
  lemma DocumentedTokenIsRead()
    ensures PidFromToken("module_08-06-2026_14-22_p20164-9fa3c1") == Some(20164)
  {
    ParseOneMore("", '2', 0);
    assert "" + ['2'] == "2";
    ParseOneMore("2", '0', 2);
    assert "2" + ['0'] == "20";
    ParseOneMore("20", '1', 20);
    assert "20" + ['1'] == "201";
    ParseOneMore("201", '6', 201);
    assert "201" + ['6'] == "2016";
    ParseOneMore("2016", '4', 2016);
    assert "2016" + ['4'] == "20164";
    PidTokenIsRead("module_08-06-2026_14-22_p20164-9fa3c1", "module_08-06-2026_14-22", "20164", "-9fa3c1");
  }
}
