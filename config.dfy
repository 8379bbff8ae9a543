/** The run configuration of `src/config.rs`: a record with fixed defaults,
    two by-value setters, and the validation `get_config` applies to the two
    command-line values (the command-line parser itself is not modelled; its
    two argument strings are the inputs). */
module Configuration {
  import opened Decimal

  const MaxPages: nat := 250
  const DefaultUrlPrefix: string := "https://videa.hu/videok/film-animacio/"

  const OffsetErrorMessage: string := "Page offset must be in range: 0 - 9999."
  const CountErrorMessage: string := "Page count must be in range: 1 - " + ToDecimal(MaxPages) + "."

  datatype Config = Config(urlPrefix: string, pageCount: u16, pageOffset: u16) {

    /** `Config::new`: the defaults. */
    static function New(): (c: Config)
      ensures c.urlPrefix == DefaultUrlPrefix && c.pageCount == 1 && c.pageOffset == 0
    {
      Config(DefaultUrlPrefix, 1, 0)
    }

    function GetUrlPrefix(): (p: string)
      ensures p == urlPrefix
    {
      urlPrefix
    }

    /** `set_page_count` consumes the record and returns it with one field replaced. */
    function SetPageCount(n: u16): (c: Config)
      ensures c.pageCount == n
      ensures c.urlPrefix == urlPrefix && c.pageOffset == pageOffset
    {
      this.(pageCount := n)
    }

    function SetPageOffset(n: u16): (c: Config)
      ensures c.pageOffset == n
      ensures c.urlPrefix == urlPrefix && c.pageCount == pageCount
    {
      this.(pageOffset := n)
    }
  }

  /** The two setters touch different fields, so their order does not matter,
      and a second call of the same setter overrides the first. */
  lemma SettersIndependent(c: Config, n: u16, m: u16, k: u16)
    ensures c.SetPageCount(n).SetPageOffset(m) == c.SetPageOffset(m).SetPageCount(n)
    ensures c.SetPageCount(n).SetPageCount(k) == c.SetPageCount(k)
    ensures c.SetPageOffset(m).SetPageOffset(k) == c.SetPageOffset(k)
  {
  }

  /** What `get_config` ends in: its `Result`, or the panic of the `unwrap`
      that follows parsing the page count. */
  datatype Outcome = Ok(config: Config) | Err(message: string) | Panicked

  /** `get_config` on the values of the `pagecount` and `pageoffset` arguments.
      The page count is parsed first and unwrapped; then the offset is parsed,
      whose failure is the offset error; only then is the page count's range checked. */
  function GetConfig(pageCountArg: string, pageOffsetArg: string): (r: Outcome)
    ensures r.Panicked? <==> ParseU16(pageCountArg).None?
    ensures ParseU16(pageCountArg).Some? && ParseU16(pageOffsetArg).None? ==>
              r == Err(OffsetErrorMessage)
    ensures r.Ok? <==>
              ParseU16(pageCountArg).Some? && ParseU16(pageOffsetArg).Some? &&
              1 <= ParseU16(pageCountArg).value as nat <= MaxPages
    ensures r.Ok? ==>
              r.config.GetUrlPrefix() == DefaultUrlPrefix &&
              r.config.pageCount == ParseU16(pageCountArg).value &&
              r.config.pageOffset == ParseU16(pageOffsetArg).value
    ensures r.Err? ==>
              && ParseU16(pageCountArg).Some?
              && r.message == (if ParseU16(pageOffsetArg).None? then OffsetErrorMessage
                               else CountErrorMessage)
  {
    match ParseU16(pageCountArg)
    case None => Panicked
    case Some(pageCount) =>
      match ParseU16(pageOffsetArg)
      case None => Err(OffsetErrorMessage)
      case Some(pageOffset) =>
        if !(1 <= pageCount as nat <= MaxPages) then Err(CountErrorMessage)
        else Ok(Config.New().SetPageCount(pageCount).SetPageOffset(pageOffset))
  }

  /** Every page count in 1..=250 and every offset in 0..=65535, written as a
      numeral, yields exactly that configuration; the 9999 in the offset
      message is not enforced. */
  lemma GetConfigAccepts(pageCount: u16, pageOffset: u16)
    requires 1 <= pageCount as nat <= MaxPages
    ensures GetConfig(ToDecimal(pageCount as nat), ToDecimal(pageOffset as nat)) ==
            Ok(Config(DefaultUrlPrefix, pageCount, pageOffset))
  {
    ParseDecimal(pageCount);
    ParseDecimal(pageOffset);
  }

  /** A page count outside 1..=250 is the page-count error whenever the offset parses. */
  lemma GetConfigRejectsCount(pageCount: u16, pageOffsetArg: string)
    requires pageCount == 0 || pageCount as nat > MaxPages
    requires ParseU16(pageOffsetArg).Some?
    ensures GetConfig(ToDecimal(pageCount as nat), pageOffsetArg) == Err(CountErrorMessage)
  {
    ParseDecimal(pageCount);
  }

  /** An unparseable offset is reported even when the page count is out of range. */
  lemma GetConfigOffsetFirst(pageCount: u16, pageOffsetArg: string)
    requires ParseU16(pageOffsetArg).None?
    ensures GetConfig(ToDecimal(pageCount as nat), pageOffsetArg) == Err(OffsetErrorMessage)
  {
    ParseDecimal(pageCount);
  }

  /** The boundaries of the page-count range, and of the offset's `u16` range. */
  lemma GetConfigBoundaries()
    ensures GetConfig("0", "0") == Err(CountErrorMessage)
    ensures GetConfig("251", "0") == Err(CountErrorMessage)
    ensures GetConfig("1", "0") == Ok(Config.New())
    ensures GetConfig("250", "0") == Ok(Config.New().SetPageCount(250))
    ensures GetConfig("1", "65535") == Ok(Config.New().SetPageOffset(65535))
    ensures GetConfig("1", "65536") == Err(OffsetErrorMessage)
    ensures GetConfig("", "0") == Panicked
  {
    assert ToDecimal(0) == "0";
    assert ToDecimal(1) == "1";
    assert ToDecimal(250) == "250" by {
      assert ToDecimal(25) == "25";
    }
    assert ToDecimal(251) == "251" by {
      assert ToDecimal(25) == "25";
    }
    assert ToDecimal(65535) == "65535" by {
      assert ToDecimal(6553) == "6553" by {
        assert ToDecimal(655) == "655" by {
          assert ToDecimal(65) == "65";
        }
      }
    }
    assert ToDecimal(65536) == "65536" by {
      assert ToDecimal(6553) == "6553" by {
        assert ToDecimal(655) == "655" by {
          assert ToDecimal(65) == "65";
        }
      }
    }
    GetConfigAccepts(1, 0);
    GetConfigAccepts(250, 0);
    GetConfigAccepts(1, 65535);
    GetConfigRejectsCount(0, "0");
    GetConfigRejectsCount(251 as u16, "0");
    ParseOverflow(65536);
    ParseDecimal(1);
  }

  lemma CountErrorMessageText()
    ensures CountErrorMessage == "Page count must be in range: 1 - 250."
  {
  }
}
