/**
 The GTID: a MariaDB replication position `domain-serverId-sequence`, its text form and its parser.
 An absent GTID (nil in the program) has the empty text form.
 */
module Gtids {
  import opened Wrappers
  import opened ByteStrings
  import Decimal

  const Uint32Bound: nat := 0x1_0000_0000
  const Uint64Bound: nat := 0x1_0000_0000_0000_0000

  type Uint32 = n: nat | n < Uint32Bound
  type Uint64 = n: nat | n < Uint64Bound

  datatype Gtid = Gtid(domain: Uint32, serverId: Uint32, sequence: Uint64)

  const Separator: Byte := '-'

  /** The text form `"<domain>-<serverId>-<sequence>"`: three shortest decimal spellings. */
  function Text(g: Gtid): Bytes
  {
    TripleText(g.domain, g.serverId, g.sequence)
  }

  lemma FieldsHaveNoSeparator(g: Gtid)
    ensures forall k | 0 <= k < 3 :: Separator !in Fields(g)[k]
  {
    var f := Fields(g);
    forall k | 0 <= k < 3 ensures Separator !in f[k] {
      assert Decimal.AllDigits(f[k]);
    }
  }

  /** Three unsigned decimals separated by `-`, whether or not they fit a GTID's field widths. */
  function TripleText(d: nat, s: nat, q: nat): Bytes
  {
    Decimal.Format(d) + [Separator] + Decimal.Format(s) + [Separator] + Decimal.Format(q)
  }

  /** The text form of a possibly absent GTID: absent is the empty string, present is never empty. */
  function OptionalText(g: Option<Gtid>): (r: Bytes)
    ensures r == [] <==> g.None?
  {
    match g
    case None => []
    case Some(x) => Text(x)
  }

  datatype ParseError =
    | FieldCount(fields: nat)   // not exactly three `-`-separated fields
    | BadDomain
    | BadServerId
    | BadSequence

  /**
   Parse `"d-s-q"`: exactly three fields separated by `-`, the first two unsigned 32-bit
   decimals and the last an unsigned 64-bit decimal.
   */
  function Parse(s: Bytes): (r: Result<Gtid, ParseError>)
    ensures r.Ok? ==> |Split(s, Separator)| == 3
    ensures r.Ok? ==> forall i | 0 <= i < |s| :: Decimal.IsDigit(s[i]) || s[i] == Separator
  {
    var fields := Split(s, Separator);
    if |fields| != 3 then Err(FieldCount(|fields|))
    else
      var r := ParseFields(fields);
      if r.Ok? then OnlyDigitsAndSeparators(fields); r else r
  }

  /** The three fields, each parsed at its width; the first field that does not parse names the error. */
  function ParseFields(fields: seq<Bytes>): (r: Result<Gtid, ParseError>)
    requires |fields| == 3
    ensures r.Ok? <==> (forall k | 0 <= k < 3 :: |fields[k]| > 0 && Decimal.AllDigits(fields[k]))
                       && Decimal.Value(fields[0]) < Uint32Bound
                       && Decimal.Value(fields[1]) < Uint32Bound
                       && Decimal.Value(fields[2]) < Uint64Bound
    ensures r.Ok? ==> r.value == Gtid(Decimal.Value(fields[0]), Decimal.Value(fields[1]), Decimal.Value(fields[2]))
    ensures r.Err? ==> (r.error == BadDomain <==> Decimal.ParseUint(fields[0], Uint32Bound).None?)
  {
    match (Decimal.ParseUint(fields[0], Uint32Bound),
           Decimal.ParseUint(fields[1], Uint32Bound),
           Decimal.ParseUint(fields[2], Uint64Bound))
    case (None, _, _) => Err(BadDomain)
    case (_, None, _) => Err(BadServerId)
    case (_, _, None) => Err(BadSequence)
    case (Some(d), Some(id), Some(q)) => Ok(Gtid(d, id, q))
  }

  /** A join of three fields, written out. */
  lemma JoinThree(fields: seq<Bytes>)
    requires |fields| == 3
    ensures Join(fields, Separator) == fields[0] + [Separator] + fields[1] + [Separator] + fields[2]
  {
    assert fields[1..][1..] == [fields[2]];
    assert Join(fields[1..], Separator) == fields[1] + [Separator] + fields[2];
  }

  lemma OnlyDigitsAndSeparators(fields: seq<Bytes>)
    requires |fields| == 3
    requires forall k | 0 <= k < 3 :: Decimal.AllDigits(fields[k])
    ensures forall i | 0 <= i < |Join(fields, Separator)| ::
              Decimal.IsDigit(Join(fields, Separator)[i]) || Join(fields, Separator)[i] == Separator
  {
    JoinThree(fields);
    var s := Join(fields, Separator);
    var a, b := |fields[0]|, |fields[0]| + 1 + |fields[1]|;
    forall i | 0 <= i < |s| ensures Decimal.IsDigit(s[i]) || s[i] == Separator {
      if i < a {
        assert s[i] == fields[0][i];
      } else if i == a || i == b {
      } else if i < b {
        assert s[i] == fields[1][i - a - 1];
      } else {
        assert s[i] == fields[2][i - b - 1];
      }
    }
  }

  /** The three fields of a GTID's text form. */
  function Fields(g: Gtid): seq<Bytes>
  {
    [Decimal.Format(g.domain), Decimal.Format(g.serverId), Decimal.Format(g.sequence)]
  }

  lemma TextIsJoin(g: Gtid)
    ensures Text(g) == Join(Fields(g), Separator)
    ensures forall k | 0 <= k < 3 :: Separator !in Fields(g)[k]
  {
    JoinThree(Fields(g));
    FieldsHaveNoSeparator(g);
  }

  /** The text form is canonical: split at `-` it is three shortest decimal spellings. */
  lemma TextIsCanonical(g: Gtid)
    ensures CanonicalText(Text(g))
  {
    TextIsJoin(g);
    SplitJoin(Fields(g), Separator);
  }

  /** Round trip: parsing a GTID's text form gives the same GTID. */
  lemma ParseText(g: Gtid)
    ensures Parse(Text(g)) == Ok(g)
  {
    TextIsJoin(g);
    SplitJoin(Fields(g), Separator);
    Decimal.ParseFormat(g.domain, Uint32Bound);
    Decimal.ParseFormat(g.serverId, Uint32Bound);
    Decimal.ParseFormat(g.sequence, Uint64Bound);
  }

  /** The text is canonical: three shortest decimal spellings separated by `-`. */
  predicate CanonicalText(s: Bytes)
  {
    var fields := Split(s, Separator);
    |fields| == 3 && forall k | 0 <= k < 3 :: Decimal.Canonical(fields[k])
  }

  /**
   Round trip the other way: a string that parses is reproduced exactly by the text form
   of its GTID if and only if its fields carry no leading zeros.
   */
  lemma TextParse(s: Bytes, g: Gtid)
    requires Parse(s) == Ok(g)
    ensures Text(g) == s <==> CanonicalText(s)
  {
    var fields := Split(s, Separator);
    if CanonicalText(s) {
      Decimal.FormatValue(fields[0]);
      Decimal.FormatValue(fields[1]);
      Decimal.FormatValue(fields[2]);
      assert Fields(g) == fields;
      TextIsJoin(g);
    }
    if Text(g) == s {
      TextIsCanonical(g);
    }
  }

  /** Two GTIDs with the same text form are the same GTID, so the text is a faithful key. */
  lemma TextInjective(g: Gtid, h: Gtid)
    requires Text(g) == Text(h)
    ensures g == h
  {
    ParseText(g);
    ParseText(h);
  }

  /** Any number of separator-free fields other than three is refused, and the error says how many there were. */
  lemma ParseRefusesFieldCount(fields: seq<Bytes>)
    requires |fields| >= 1 && |fields| != 3
    requires forall k | 0 <= k < |fields| :: Separator !in fields[k]
    ensures Parse(Join(fields, Separator)) == Err(FieldCount(|fields|))
  {
    SplitJoin(fields, Separator);
  }

  /**
   Three decimal fields parse exactly when each fits its width (32, 32 and 64 bits): a value
   that does not fit is refused, never wrapped or truncated.
   */
  lemma ParseInRange(d: nat, s: nat, q: nat)
    ensures Parse(TripleText(d, s, q)).Ok? <==> d < Uint32Bound && s < Uint32Bound && q < Uint64Bound
  {
    var f := [Decimal.Format(d), Decimal.Format(s), Decimal.Format(q)];
    JoinThree(f);
    forall k | 0 <= k < 3 ensures Separator !in f[k] {
      assert Decimal.AllDigits(f[k]);
    }
    ParseOfFields(f);
    FieldsInRange(d, s, q);
  }

  lemma FieldsInRange(d: nat, s: nat, q: nat)
    ensures ParseFields([Decimal.Format(d), Decimal.Format(s), Decimal.Format(q)]).Ok?
            <==> d < Uint32Bound && s < Uint32Bound && q < Uint64Bound
  {
    Decimal.ValueFormat(d);
    Decimal.ValueFormat(s);
    Decimal.ValueFormat(q);
  }

  /** Three separator-free fields joined by `-` parse field by field. */
  lemma ParseOfFields(f: seq<Bytes>)
    requires |f| == 3
    requires forall k | 0 <= k < 3 :: Separator !in f[k]
    ensures Parse(Join(f, Separator)) == ParseFields(f)
  {
    SplitJoin(f, Separator);
  }
}
