/** The settings of the application's unit tests, as facts about `Validate`. */
module AppExamples {
  import opened Wrappers
  import opened ByteStrings
  import opened AppConfig

  const Baseline := App("mydb", "JSON", "myhost", "mypass", 4001, "mytable", "myuser",
                        "0f672312-e02a-11e8-8c13-cf8f48795343", "kafka:9092", "mytopic", 8080)

  lemma BaselineIsValid()
    ensures Validate(Baseline) == None
  {
  }

  lemma BaselineFormats()
    ensures Validate(Baseline.(cdcFormat := "banana")) == Some(CdcFormatInvalid)
    ensures Validate(Baseline.(cdcFormat := "JSON")) == None
    ensures Validate(Baseline.(cdcFormat := "AVRO")) == None
  {
    var banana: Bytes := "banana";
    assert banana[0] != Json[0] && banana[0] != Avro[0];
    FormatIsExact(Baseline, banana);
  }

  /** With both the port and the topic missing, the port is reported: it is checked first. */
  lemma PortReportedBeforeTopic()
    ensures Validate(Baseline.(port := 0, kafkaTopic := [])) == Some(PortMissing)
  {
  }
}
