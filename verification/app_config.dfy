/**
 `App.Validate`: the connector's settings are checked one after the other in a fixed order and
 the first check that fails names the error.
 */
module AppConfig {
  import opened Wrappers
  import opened ByteStrings

  /** The settings; Go's `int` ports are unbounded here, as only their sign is looked at. */
  datatype App = App(
    cdcDatabase: Bytes,
    cdcFormat: Bytes,
    cdcHost: Bytes,
    cdcPassword: Bytes,
    cdcPort: int,
    cdcTable: Bytes,
    cdcUser: Bytes,
    cdcUuid: Bytes,
    kafkaBrokers: Bytes,
    kafkaTopic: Bytes,
    port: int)

  datatype ConfigError =
    | PortMissing
    | KafkaBrokersMissing
    | KafkaTopicMissing
    | CdcHostMissing
    | CdcPortMissing
    | CdcUserMissing
    | CdcPasswordMissing
    | CdcDatabaseMissing
    | CdcTableMissing
    | CdcUuidMissing
    | CdcFormatInvalid

  const Json: Bytes := "JSON"
  const Avro: Bytes := "AVRO"

  /** The settings the connector can run with, stated field by field. */
  predicate WellFormed(a: App)
  {
    && a.port > 0 && a.cdcPort > 0
    && |a.kafkaBrokers| > 0 && |a.kafkaTopic| > 0 && |a.cdcHost| > 0 && |a.cdcUser| > 0
    && |a.cdcPassword| > 0 && |a.cdcDatabase| > 0 && |a.cdcTable| > 0 && |a.cdcUuid| > 0
    && (a.cdcFormat == Json || a.cdcFormat == Avro)
  }

  /** `Validate`, check by check as the source orders them, the table check appearing twice. */
  function Validate(a: App): (r: Option<ConfigError>)
    ensures r.None? <==> WellFormed(a)
    ensures r.Some? ==> Violates(a, r.value)
  {
    if a.port <= 0 then Some(PortMissing)
    else if a.kafkaBrokers == [] then Some(KafkaBrokersMissing)
    else if a.kafkaTopic == [] then Some(KafkaTopicMissing)
    else if a.cdcHost == [] then Some(CdcHostMissing)
    else if a.cdcPort <= 0 then Some(CdcPortMissing)
    else if a.cdcUser == [] then Some(CdcUserMissing)
    else if a.cdcPassword == [] then Some(CdcPasswordMissing)
    else if a.cdcDatabase == [] then Some(CdcDatabaseMissing)
    else if a.cdcTable == [] then Some(CdcTableMissing)
    else if a.cdcUuid == [] then Some(CdcUuidMissing)
    else if a.cdcTable == [] then Some(CdcTableMissing)
    else if a.cdcFormat != Json && a.cdcFormat != Avro then Some(CdcFormatInvalid)
    else None
  }

  /** When a setting fails the check that reports the error. */
  predicate Violates(a: App, e: ConfigError)
  {
    match e
    case PortMissing => a.port <= 0
    case KafkaBrokersMissing => |a.kafkaBrokers| == 0
    case KafkaTopicMissing => |a.kafkaTopic| == 0
    case CdcHostMissing => |a.cdcHost| == 0
    case CdcPortMissing => a.cdcPort <= 0
    case CdcUserMissing => |a.cdcUser| == 0
    case CdcPasswordMissing => |a.cdcPassword| == 0
    case CdcDatabaseMissing => |a.cdcDatabase| == 0
    case CdcTableMissing => |a.cdcTable| == 0
    case CdcUuidMissing => |a.cdcUuid| == 0
    case CdcFormatInvalid => a.cdcFormat != Json && a.cdcFormat != Avro
  }

  /** The order of the checks in the source. */
  const CheckOrder: seq<ConfigError> := [
    PortMissing, KafkaBrokersMissing, KafkaTopicMissing, CdcHostMissing, CdcPortMissing,
    CdcUserMissing, CdcPasswordMissing, CdcDatabaseMissing, CdcTableMissing, CdcUuidMissing,
    CdcTableMissing, CdcFormatInvalid]

  /** The same order without the repeated table check. */
  const DistinctCheckOrder: seq<ConfigError> := [
    PortMissing, KafkaBrokersMissing, KafkaTopicMissing, CdcHostMissing, CdcPortMissing,
    CdcUserMissing, CdcPasswordMissing, CdcDatabaseMissing, CdcTableMissing, CdcUuidMissing,
    CdcFormatInvalid]

  /** Reference: the first check in `checks` that the settings fail. */
  function FirstViolation(a: App, checks: seq<ConfigError>): Option<ConfigError>
  {
    if |checks| == 0 then None
    else if Violates(a, checks[0]) then Some(checks[0])
    else FirstViolation(a, checks[1..])
  }

  /**
   The reference finds nothing exactly when no check fails, and otherwise a check that fails
   with every check before it passing.
   */
  lemma {:induction false} FirstViolationIsFirst(a: App, checks: seq<ConfigError>)
    ensures var r := FirstViolation(a, checks);
            (r.None? <==> forall i | 0 <= i < |checks| :: !Violates(a, checks[i]))
            && (r.Some? ==> exists k | 0 <= k < |checks| ::
                  checks[k] == r.value && Violates(a, checks[k]) && forall i | 0 <= i < k :: !Violates(a, checks[i]))
  {
    if |checks| > 0 && !Violates(a, checks[0]) {
      var rest := checks[1..];
      FirstViolationIsFirst(a, rest);
      forall i | 0 < i < |checks| ensures checks[i] == rest[i - 1] {
      }
      var r := FirstViolation(a, rest);
      if r.Some? {
        var k :| 0 <= k < |rest| && rest[k] == r.value && Violates(a, rest[k])
                 && forall i | 0 <= i < k :: !Violates(a, rest[i]);
        assert checks[k + 1] == rest[k];
        assert forall i | 0 <= i < k + 1 :: !Violates(a, checks[i]) by {
          forall i | 0 < i < k + 1 ensures !Violates(a, checks[i]) {
            assert checks[i] == rest[i - 1];
          }
        }
      } else {
        assert forall i | 0 <= i < |checks| :: !Violates(a, checks[i]) by {
          forall i | 0 < i < |checks| ensures !Violates(a, checks[i]) {
            assert checks[i] == rest[i - 1];
          }
        }
      }
    }
  }

  /** One step of the reference: the check at position `k` either fails or hands over to the rest. */
  lemma FirstViolationAt(a: App, checks: seq<ConfigError>, k: nat)
    requires k < |checks|
    ensures FirstViolation(a, checks[k..])
            == if Violates(a, checks[k]) then Some(checks[k]) else FirstViolation(a, checks[k + 1..])
  {
    assert checks[k..][1..] == checks[k + 1..];
  }

  /** The checks from the user check on, as `Validate` makes them once the earlier ones passed. */
  function LaterChecks(a: App): Option<ConfigError>
  {
    if a.cdcUser == [] then Some(CdcUserMissing)
    else if a.cdcPassword == [] then Some(CdcPasswordMissing)
    else if a.cdcDatabase == [] then Some(CdcDatabaseMissing)
    else if a.cdcTable == [] then Some(CdcTableMissing)
    else if a.cdcUuid == [] then Some(CdcUuidMissing)
    else if a.cdcTable == [] then Some(CdcTableMissing)
    else if a.cdcFormat != Json && a.cdcFormat != Avro then Some(CdcFormatInvalid)
    else None
  }

  lemma LaterChecksFirst(a: App)
    ensures LaterChecks(a) == FirstViolation(a, CheckOrder[5..])
  {
    var c := CheckOrder;
    assert c[12..] == [];
    FirstViolationAt(a, c, 11);
    FirstViolationAt(a, c, 10);
    FirstViolationAt(a, c, 9);
    FirstViolationAt(a, c, 8);
    FirstViolationAt(a, c, 7);
    FirstViolationAt(a, c, 6);
    FirstViolationAt(a, c, 5);
  }

  lemma LaterChecksFirstDistinct(a: App)
    ensures LaterChecks(a) == FirstViolation(a, DistinctCheckOrder[5..])
  {
    var d := DistinctCheckOrder;
    assert d[11..] == [];
    FirstViolationAt(a, d, 10);
    FirstViolationAt(a, d, 9);
    FirstViolationAt(a, d, 8);
    FirstViolationAt(a, d, 7);
    FirstViolationAt(a, d, 6);
    FirstViolationAt(a, d, 5);
  }

  /** The first five checks are the same in both orders and run before `LaterChecks`. */
  lemma EarlierChecks(a: App, checks: seq<ConfigError>)
    requires |checks| > 5
    requires checks[0] == PortMissing && checks[1] == KafkaBrokersMissing && checks[2] == KafkaTopicMissing
    requires checks[3] == CdcHostMissing && checks[4] == CdcPortMissing
    requires LaterChecks(a) == FirstViolation(a, checks[5..])
    ensures Validate(a) == FirstViolation(a, checks)
  {
    FirstViolationAt(a, checks, 4);
    FirstViolationAt(a, checks, 3);
    FirstViolationAt(a, checks, 2);
    FirstViolationAt(a, checks, 1);
    FirstViolationAt(a, checks, 0);
    assert checks[0..] == checks;
  }

  /** `Validate` reports exactly the first failing check in the source's order. */
  lemma ValidateIsFirstViolation(a: App)
    ensures Validate(a) == FirstViolation(a, CheckOrder)
  {
    LaterChecksFirst(a);
    EarlierChecks(a, CheckOrder);
  }

  /** `Validate` also reports the first failing check of the order without the repeated table check. */
  lemma ValidateIsFirstDistinctViolation(a: App)
    ensures Validate(a) == FirstViolation(a, DistinctCheckOrder)
  {
    LaterChecksFirstDistinct(a);
    EarlierChecks(a, DistinctCheckOrder);
  }

  /**
   The second table check decides nothing: the order without it is the source's order with
   position 10 removed, and it gives the same first failure for every setting.
   */
  lemma SecondTableCheckUnreachable(a: App)
    ensures DistinctCheckOrder == CheckOrder[..10] + CheckOrder[11..]
    ensures FirstViolation(a, CheckOrder) == FirstViolation(a, DistinctCheckOrder)
  {
    ValidateIsFirstViolation(a);
    ValidateIsFirstDistinctViolation(a);
  }

  /** From valid settings, clearing any one required setting is reported as exactly that setting missing. */
  lemma ClearedSettingIsReported(a: App)
    requires WellFormed(a)
    ensures Validate(a.(port := 0)) == Some(PortMissing)
    ensures Validate(a.(kafkaBrokers := [])) == Some(KafkaBrokersMissing)
    ensures Validate(a.(kafkaTopic := [])) == Some(KafkaTopicMissing)
    ensures Validate(a.(cdcHost := [])) == Some(CdcHostMissing)
    ensures Validate(a.(cdcPort := 0)) == Some(CdcPortMissing)
    ensures Validate(a.(cdcUser := [])) == Some(CdcUserMissing)
    ensures Validate(a.(cdcPassword := [])) == Some(CdcPasswordMissing)
    ensures Validate(a.(cdcDatabase := [])) == Some(CdcDatabaseMissing)
    ensures Validate(a.(cdcTable := [])) == Some(CdcTableMissing)
    ensures Validate(a.(cdcUuid := [])) == Some(CdcUuidMissing)
  {
  }

  /** The format check is an exact match against JSON and AVRO. */
  lemma FormatIsExact(a: App, format: Bytes)
    requires WellFormed(a)
    ensures Validate(a.(cdcFormat := format)) == if format == Json || format == Avro then None else Some(CdcFormatInvalid)
  {
  }
}
