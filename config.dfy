/**
 * The system_config table: a string-to-string store with two typed readers,
 * the delivery fee (in cents, 20.0 when absent or unreadable) and the
 * delivery switch ("true" in any letter case), plus the admin's fee
 * validation and the toggle's text.
 */
module Config {
  import opened Common
  import opened Text

  const FeeKey := "delivery_fee"
  const ActiveKey := "is_delivery_active"

  /** The fee's default text and the value used when the stored text is unreadable: 20.0. */
  const DefaultFeeText := "20.0"
  const DefaultFee := 2000

  /** The active flag's default text. */
  const DefaultActiveText := "True"

  /** get_value: the stored text, or the default when the key has no row. */
  function GetValue(cfg: map<string, string>, key: string, default: string): (v: string)
    ensures key in cfg ==> v == cfg[key]
    ensures key !in cfg ==> v == default
  {
    if key in cfg then cfg[key] else default
  }

  /** set_value: overwrites the key's row if there is one, inserts it otherwise. */
  function SetValue(cfg: map<string, string>, key: string, value: string): (r: map<string, string>)
    ensures r.Keys == cfg.Keys + {key}
    ensures r[key] == value
    ensures forall k :: k in cfg && k != key ==> r[k] == cfg[k]
  {
    cfg[key := value]
  }

  /** A get after a set reads the written text; other keys read as before. */
  lemma ReadAfterWrite(cfg: map<string, string>, key: string, value: string, other: string, default: string)
    ensures GetValue(SetValue(cfg, key, value), key, default) == value
    ensures other != key ==> GetValue(SetValue(cfg, key, value), other, default) == GetValue(cfg, other, default)
  {
  }

  /** The default text "20.0" reads as 20.0. */
  lemma DefaultFeeReads()
    ensures ParseFloat(DefaultFeeText) == Some(DefaultFee)
  {
    assert FormatCents(DefaultFee) == DefaultFeeText by {
      assert NatToString(20) == NatToString(2) + [DigitChar(0)];
    }
    FormatCentsRoundTrip(DefaultFee);
    StripNoSpace(DefaultFeeText);
  }

  /** get_delivery_fee: the stored fee read as a number; 20.0 when absent or unreadable. */
  function DeliveryFee(cfg: map<string, string>): (fee: int)
    ensures FeeKey !in cfg ==> fee == DefaultFee
    ensures FeeKey in cfg && ParseFloat(cfg[FeeKey]).None? ==> fee == DefaultFee
    ensures FeeKey in cfg && ParseFloat(cfg[FeeKey]).Some? ==> fee == ParseFloat(cfg[FeeKey]).value
  {
    DefaultFeeReads();
    match ParseFloat(GetValue(cfg, FeeKey, DefaultFeeText))
    case Some(f) => f
    case None => DefaultFee
  }

  /** "true" in any mix of letter cases. */
  predicate SpellsTrue(s: string) {
    |s| == 4 && s[0] in "tT" && s[1] in "rR" && s[2] in "uU" && s[3] in "eE"
  }

  /**
   * is_delivery_active: the stored flag, lower-cased, is "true"; that is, the
   * stored text spells "true" in some letter case, and with no row it is on.
   */
  function IsDeliveryActive(cfg: map<string, string>): (active: bool)
    ensures ActiveKey in cfg ==> (active <==> SpellsTrue(cfg[ActiveKey]))
    ensures ActiveKey !in cfg ==> active
  {
    var t := GetValue(cfg, ActiveKey, DefaultActiveText);
    var l := Lower(t);
    assert l == "true" <==> |t| == 4 && l[0] == 't' && l[1] == 'r' && l[2] == 'u' && l[3] == 'e';
    l == "true"
  }

  /** str() of a bool, as the toggle stores it. */
  function BoolText(b: bool): (t: string)
    ensures SpellsTrue(t) <==> b
  {
    if b then "True" else "False"
  }

  /**
   * The delivery switch reads "true" in any letter case as on and anything
   * else as off; with no row it is on.
   */
  lemma ActiveReading(cfg: map<string, string>)
    ensures ActiveKey !in cfg ==> IsDeliveryActive(cfg)
    ensures IsDeliveryActive(cfg[ActiveKey := "TRUE"]) && IsDeliveryActive(cfg[ActiveKey := "tRuE"])
    ensures !IsDeliveryActive(cfg[ActiveKey := "yes"]) && !IsDeliveryActive(cfg[ActiveKey := " true"])
  {
    assert Lower("True") == "true";
    assert Lower("TRUE") == "true";
    assert Lower("tRuE") == "true";
  }

  /** toggle_delivery: storing str(not active) flips the switch. */
  lemma ToggleFlips(cfg: map<string, string>)
    ensures IsDeliveryActive(SetValue(cfg, ActiveKey, BoolText(!IsDeliveryActive(cfg)))) == !IsDeliveryActive(cfg)
  {
    assert Lower("True") == "true";
    assert Lower("False")[0] == 'f';
  }

  /** Toggling twice gives back the original switch state. */
  lemma ToggleTwice(cfg: map<string, string>)
    ensures var once := SetValue(cfg, ActiveKey, BoolText(!IsDeliveryActive(cfg)));
      IsDeliveryActive(SetValue(once, ActiveKey, BoolText(!IsDeliveryActive(once)))) == IsDeliveryActive(cfg)
  {
    ToggleFlips(cfg);
    ToggleFlips(SetValue(cfg, ActiveKey, BoolText(!IsDeliveryActive(cfg))));
  }

  /**
   * The fee form of update_settings and update_delivery_price: the stripped
   * text must read as a number that is not negative.
   */
  function ValidateFee(raw: string): (r: Result<nat>)
    ensures r.Ok? <==> ParseFloat(raw).Some? && ParseFloat(raw).value >= 0
    ensures r.Ok? ==> r.value == ParseFloat(raw).value
    ensures r.Err? ==> r.error == InvalidFee
  {
    var s := Strip(raw);
    match ParseDecimal(s)
    case Some(f) => if f < 0 then Err(InvalidFee) else Ok(f)
    case None => Err(InvalidFee)
  }

  /** A fee accepted by the form and stored as str(float) reads back as that fee. */
  lemma FeeUpdateReadsBack(cfg: map<string, string>, raw: string)
    requires ValidateFee(raw).Ok?
    ensures DeliveryFee(SetValue(cfg, FeeKey, FormatCents(ValidateFee(raw).value))) == ValidateFee(raw).value
  {
    var c := ValidateFee(raw).value;
    FormatCentsRoundTrip(c);
    StripNoSpace(FormatCents(c));
  }
}
