/**
 * The `Run` record: its status string, its blob collection (source code and
 * log, stored sanitised) and the attributes that the save callbacks derive
 * from them. Persistence itself is not modelled; the record is an object
 * whose fields the methods update in place.
 */
module Runs {
  import opened Wrappers
  import opened Sanitizer
  import Scoring
  import Metrics
  import ClassName
  import Tokens

  /** The associated blob collection; either attribute may be `nil`. */
  datatype Blobs = Blobs(sourceCode: Option<seq<Byte>>, log: Option<seq<Byte>>)

  /** What `build_run_blob_collection` creates. */
  const NewBlobs: Blobs := Blobs(None, None)

  /** How a call ends: normally, or by calling a method on `nil`. */
  datatype Outcome = Done | NoMethodError

  class Run {
    var status: string
    var blobs: Option<Blobs>
    var totalPoints: Option<int>
    var maxTime: Option<real>
    var maxMemory: Option<int>

    /** A new record with the judge's status and nothing else set. */
    constructor(status: string)
      ensures this.status == status && blobs == None
      ensures totalPoints == None && maxTime == None && maxMemory == None
    {
      this.status := status;
      blobs := None;
      totalPoints := None;
      maxTime := None;
      maxMemory := None;
    }

    /** The collection after `build_run_blob_collection if run_blob_collection.nil?`. */
    function BuiltBlobs(): Blobs
      reads this
    {
      blobs.GetOr(NewBlobs)
    }

    /**
     * `source_code`: the stored source, or `""` when there is no collection
     * or no source in it, with every byte outside ASCII dropped.
     */
    function SourceCode(): (r: seq<Byte>)
      reads this
      ensures AllAscii(r)
      ensures blobs == None || blobs.value.sourceCode == None ==> r == []
      ensures blobs != None && blobs.value.sourceCode != None ==> r == Sanitize(blobs.value.sourceCode.value)
      ensures blobs != None && blobs.value.sourceCode != None && AllAscii(blobs.value.sourceCode.value) ==>
        r == blobs.value.sourceCode.value
    {
      var stored := if blobs == None then [] else blobs.value.sourceCode.GetOr([]);
      SanitizeFixpoint(stored);
      Sanitize(stored)
    }

    /**
     * `source_code=`: stores the content, `nil` read as `""`, with every byte
     * outside ASCII dropped, building the collection first when there is none.
     * Reading it back gives exactly what was stored.
     */
    method SetSourceCode(content: Option<seq<Byte>>)
      modifies this
      ensures blobs == Some(old(BuiltBlobs()).(sourceCode := Some(Sanitize(content.GetOr([])))))
      ensures status == old(status) && totalPoints == old(totalPoints)
      ensures maxTime == old(maxTime) && maxMemory == old(maxMemory)
      ensures SourceCode() == Sanitize(content.GetOr([]))
      ensures SourceCode() == content.GetOr([]) <==> AllAscii(content.GetOr([]))
    {
      var b := BuiltBlobs();
      var c := content.GetOr([]);
      var clean := Sanitize(c);
      SanitizeIdempotent(c);
      SanitizeFixpoint(c);
      blobs := Some(b.(sourceCode := Some(clean)));
    }

    /**
     * `public_class_name`: the name after the first case-insensitive
     * `public class ` in the source that is followed by a word character,
     * `nil` when there is none.
     */
    function PublicClassName(): (r: Option<string>)
      reads this
      ensures r.None? <==> forall i: nat :: !ClassName.MatchAt(SourceCode(), i)
      ensures r.Some? ==> r.value != [] && ClassName.AllWord(r.value)
      ensures r.Some? ==>
        exists i: nat :: ClassName.FirstMatch(SourceCode(), i) && r.value == ClassName.NameAt(SourceCode(), i)
    {
      ClassName.PublicClassName(SourceCode())
    }

    /**
     * `log=`: builds the collection when there is none, then stores the
     * content with every byte outside ASCII dropped. A `nil` content raises
     * after the collection has been built, and nothing is stored.
     */
    method SetLog(content: Option<seq<Byte>>) returns (o: Outcome)
      modifies this
      ensures content == None ==> o == NoMethodError && blobs == Some(old(BuiltBlobs()))
      ensures content != None ==>
        o == Done && blobs == Some(old(BuiltBlobs()).(log := Some(Sanitize(content.value))))
      ensures content != None ==> AllAscii(blobs.value.log.value)
      ensures status == old(status) && totalPoints == old(totalPoints)
      ensures maxTime == old(maxTime) && maxMemory == old(maxMemory)
    {
      var b := BuiltBlobs();
      blobs := Some(b);
      if content == None {
        return NoMethodError;
      }
      blobs := Some(b.(log := Some(Sanitize(content.value))));
      return Done;
    }

    /** `total_points`: the stored total as an Integer, `nil` reading as 0. */
    function TotalPoints(): (r: int)
      reads this
      ensures totalPoints == None ==> r == 0
      ensures totalPoints != None ==> r == totalPoints.value
    {
      totalPoints.GetOr(0)
    }

    /**
     * `update_total_points`: stores the rounded total of the status, which
     * lies in [0, 100] and is 100 when every test passed.
     */
    method UpdateTotalPoints()
      modifies this
      ensures totalPoints == Some(Scoring.TotalPoints(status))
      ensures 0 <= TotalPoints() <= 100
      ensures Tokens.SplitWs(status) != [] && Scoring.AllOk(Tokens.SplitWs(status)) ==> TotalPoints() == 100
      ensures status == old(status) && blobs == old(blobs)
      ensures maxTime == old(maxTime) && maxMemory == old(maxMemory)
    {
      Scoring.TotalPointsRange(status);
      totalPoints := Some(Scoring.TotalPoints(status));
    }

    /**
     * `update_time_and_mem`: when there is a log, stores the largest time
     * and the largest memory it reports, each `nil` when the log reports
     * none (so an empty log clears both), and keeps everything when the log
     * is `nil`. Without a collection, reading the log raises.
     */
    method UpdateTimeAndMem() returns (o: Outcome)
      modifies this
      ensures blobs == None ==> o == NoMethodError
      ensures blobs != None ==> o == Done
      ensures blobs == None || blobs.value.log == None ==>
        maxTime == old(maxTime) && maxMemory == old(maxMemory)
      ensures blobs != None && blobs.value.log != None ==>
        maxTime == Metrics.MaxTime(blobs.value.log.value) &&
        maxMemory == Metrics.MaxMemory(blobs.value.log.value)
      ensures blobs != None && blobs.value.log == Some([]) ==> maxTime == None && maxMemory == None
      ensures status == old(status) && blobs == old(blobs) && totalPoints == old(totalPoints)
    {
      if blobs == None {
        return NoMethodError;
      }
      var log := blobs.value.log;
      if log != None {
        maxTime := Metrics.MaxTime(log.value);
        maxMemory := Metrics.MaxMemory(log.value);
      }
      return Done;
    }

    /**
     * The `before_save` callbacks in order: the total first, then time and
     * memory. A raise in the second leaves the total already updated.
     */
    method BeforeSave() returns (o: Outcome)
      modifies this
      ensures totalPoints == Some(Scoring.TotalPoints(old(status)))
      ensures o == (if old(blobs) == None then NoMethodError else Done)
      ensures old(blobs) != None && old(blobs).value.log != None ==>
        maxTime == Metrics.MaxTime(old(blobs).value.log.value) &&
        maxMemory == Metrics.MaxMemory(old(blobs).value.log.value)
      ensures old(blobs) == None || old(blobs).value.log == None ==>
        maxTime == old(maxTime) && maxMemory == old(maxMemory)
      ensures status == old(status) && blobs == old(blobs)
    {
      UpdateTotalPoints();
      o := UpdateTimeAndMem();
    }
  }
}
