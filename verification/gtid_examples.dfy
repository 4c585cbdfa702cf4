/** The GTID cases the repository's tests pin down, as statements about the model. */
module GtidExamples {
  import opened Wrappers
  import opened Gtids
  import ByteStrings

  /** "1-2-3" parses to domain 1, server id 2, sequence 3, and prints back as "1-2-3". */
  lemma ParsesOneTwoThree()
    ensures Parse("1-2-3") == Ok(Gtid(1, 2, 3))
    ensures Text(Gtid(1, 2, 3)) == "1-2-3"
  {
    assert Text(Gtid(1, 2, 3)) == "1-2-3";
    ParseText(Gtid(1, 2, 3));
  }

  /** "1-3-37" parses without error. */
  lemma ParsesOneThreeThirtySeven()
    ensures Parse("1-3-37") == Ok(Gtid(1, 3, 37))
  {
    assert Text(Gtid(1, 3, 37)) == "1-3-37";
    ParseText(Gtid(1, 3, 37));
  }

  /** The empty string (the text of an absent GTID) does not parse: it is one field, not three. */
  lemma RefusesEmpty()
    ensures Parse("") == Err(FieldCount(1))
  {
  }

  /** A sign is not a digit, so a signed field is refused. */
  lemma RefusesSign()
    ensures Parse("1-2-+3").Err?
  {
    var s: ByteStrings.Bytes := "1-2-+3";
    assert !Decimal.IsDigit(s[4]) && s[4] != Separator;
  }
}
