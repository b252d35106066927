/**
 CPU quotas in tenths of a core: the text form the admin types, the LXD config
 keys that enforce it, and the PATCH that writes them.
 */
module Cpu {
  import opened Wrappers
  import opened Text

  datatype CpuError = Empty | BelowOneCore | Malformed

  /** 1..9 tenths, or a whole number of cores. */
  predicate ValidCPU(tenths: int) {
    1 <= tenths && (tenths < 10 || tenths % 10 == 0)
  }

  /** Matches 0.5 or .5, one decimal in 0.1..0.9. */
  predicate IsFraction(s: string) {
    || (|s| == 2 && s[0] == '.' && '1' <= s[1] <= '9')
    || (|s| == 3 && s[0] == '0' && s[1] == '.' && '1' <= s[2] <= '9')
  }

  function ParseCPU(s: string): Result<int, CpuError> {
    var t := TrimSpace(s);
    if t == "" then Err(Empty)
    else if AllDigits(t) then
      var n := AtoiClamped(t);
      if n < 1 then Err(BelowOneCore) else Ok(Wrap64(n * 10))
    else if IsFraction(t) then Ok(DigitValue(t[|t| - 1]))
    else Err(Malformed)
  }

  function FormatCPU(tenths: nat): string {
    if tenths % 10 == 0 then Itoa(tenths / 10) else "0." + Itoa(tenths)
  }

  /** The quota a text means, in unbounded arithmetic; None when it means nothing. */
  function Meaning(s: string): Option<nat> {
    var t := TrimSpace(s);
    if t != "" && AllDigits(t) && Numeral(t) >= 1 then Some(10 * Numeral(t))
    else if IsFraction(t) then Some(DigitValue(t[|t| - 1]))
    else None
  }

  /**
   ParseCPU rejects exactly the meaningless texts. A meaningful text is read as
   what it means, a valid quota, if and only if that fits a 64-bit int; beyond
   it Atoi clamps or the multiplication by ten wraps and a wrong quota comes out.
   */
  lemma ParseCPUExact(s: string)
    ensures ParseCPU(s).Err? <==> Meaning(s).None?
    ensures Meaning(s).Some? ==> ValidCPU(Meaning(s).value)
    ensures Meaning(s).Some? ==> (ParseCPU(s) == Ok(Meaning(s).value) <==> Meaning(s).value <= MAX_INT64)
  {
    var t := TrimSpace(s);
    if IsFraction(t) {
      assert !AllDigits(t) by { assert t[|t| - 2] == '.'; }
    }
  }

  /** A whole number of cores goes through Atoi's clamp and the 64-bit product. */
  lemma ParseNumeral(s: string)
    requires s != "" && AllDigits(s) && Numeral(s) >= 1
    ensures ParseCPU(s) == Ok(Wrap64(AtoiClamped(s) * 10))
  {
    TrimSolid(s);
  }

  lemma TrimSolid(s: string)
    requires s != "" && !IsSpace(s[0]) && !IsSpace(s[|s| - 1])
    ensures TrimSpace(s) == s
  {
  }

  /** Two over-long whole-core texts: one read as 0.4 cores, one as a negative quota without an error. */
  lemma ParseCPUOverflows(s: string)
    requires s != "" && AllDigits(s)
    ensures Numeral(s) == 1844674407370955162 ==> ParseCPU(s) == Ok(4)
    ensures Numeral(s) >= MAX_INT64 ==> ParseCPU(s) == Ok(-10) && !ValidCPU(-10)
  {
    if Numeral(s) >= 1 {
      ParseNumeral(s);
      Wrap64Modulo(AtoiClamped(s) * 10);
    }
  }

  /** ParseCPU undoes FormatCPU on every valid 64-bit quota. */
  lemma ParseUndoesFormat(tenths: nat)
    requires ValidCPU(tenths) && tenths <= MAX_INT64
    ensures ParseCPU(FormatCPU(tenths)) == Ok(tenths)
  {
    if tenths % 10 == 0 {
      ItoaRoundTrip(tenths / 10);
      ParseNumeral(Itoa(tenths / 10));
    } else {
      ParseFraction(FormatCPU(tenths), tenths);
    }
  }

  lemma ParseFraction(s: string, tenths: nat)
    requires 1 <= tenths <= 9 && s == ['0', '.', DigitChar(tenths)]
    ensures ParseCPU(s) == Ok(tenths)
  {
    TrimSolid(s);
    assert !IsDigit(s[1]);
    assert DigitValue(DigitChar(tenths)) == tenths;
  }

  // ---- LXD config ----

  type Config = map<string, string>

  const CPU_KEY := "limits.cpu"
  const ALLOWANCE_KEY := "limits.cpu.allowance"
  const ALLOWANCE_SUFFIX := "ms/100ms"

  function CpuLimitConfig(tenths: nat): Config {
    if tenths % 10 != 0 then
      map[CPU_KEY := "1", ALLOWANCE_KEY := Itoa(tenths * 10) + ALLOWANCE_SUFFIX]
    else
      map[CPU_KEY := Itoa(tenths / 10), ALLOWANCE_KEY := ""]
  }

  /** LXD's PATCH on a config map: given keys override, an empty value deletes the key. */
  function Patch(config: Config, update: Config): Config {
    map k | k in config.Keys + update.Keys && (k in update ==> update[k] != "")
      :: if k in update then update[k] else config[k]
  }

  function SetCPU(config: Config, tenths: nat): Config {
    Patch(config, CpuLimitConfig(tenths))
  }

  /** What LXD enforces under a config, in tenths of a core: cores, cut down to the time slice if one is set. */
  function Enforced(config: Config): Option<nat> {
    if CPU_KEY !in config || !AllDigits(config[CPU_KEY]) then None
    else if ALLOWANCE_KEY !in config then Some(10 * Numeral(config[CPU_KEY]))
    else
      var a := config[ALLOWANCE_KEY];
      var n := |a| - |ALLOWANCE_SUFFIX|;
      if n >= 0 && a[n..] == ALLOWANCE_SUFFIX && AllDigits(a[..n]) && Numeral(config[CPU_KEY]) == 1
      then Some(Numeral(a[..n]) / 10) else None
  }

  /** One SetCPU makes any config enforce the quota, whatever it enforced before, and touches no other key. */
  lemma SetCPUEnforces(config: Config, tenths: nat)
    requires ValidCPU(tenths)
    ensures Enforced(SetCPU(config, tenths)) == Some(tenths)
    ensures SetCPU(config, tenths) - {CPU_KEY, ALLOWANCE_KEY} == config - {CPU_KEY, ALLOWANCE_KEY}
  {
    var c := SetCPU(config, tenths);
    assert CPU_KEY != ALLOWANCE_KEY by { assert |CPU_KEY| != |ALLOWANCE_KEY|; }
    if tenths % 10 == 0 {
      ItoaRoundTrip(tenths / 10);
    } else {
      ItoaRoundTrip(tenths * 10);
      ItoaRoundTrip(1);
      assert c[CPU_KEY] == "1" == Itoa(1);
      var a := c[ALLOWANCE_KEY];
      var n := |a| - |ALLOWANCE_SUFFIX|;
      assert a[..n] == Itoa(tenths * 10) && a[n..] == ALLOWANCE_SUFFIX;
    }
  }

  function SetCPUs(config: Config, quotas: seq<nat>): Config {
    if quotas == [] then config else SetCPU(SetCPUs(config, quotas[..|quotas| - 1]), quotas[|quotas| - 1])
  }

  /** Any history of quota changes, whole and fractional mixed, leaves exactly the last quota in force. */
  lemma {:induction false} LastQuotaWins(config: Config, quotas: seq<nat>)
    requires quotas != [] && forall i :: 0 <= i < |quotas| ==> ValidCPU(quotas[i])
    ensures Enforced(SetCPUs(config, quotas)) == Some(quotas[|quotas| - 1])
    ensures SetCPUs(config, quotas) - {CPU_KEY, ALLOWANCE_KEY} == config - {CPU_KEY, ALLOWANCE_KEY}
  {
    var before := quotas[..|quotas| - 1];
    if before != [] { LastQuotaWins(config, before); }
    SetCPUEnforces(SetCPUs(config, before), quotas[|quotas| - 1]);
  }
}
