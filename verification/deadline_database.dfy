/**
 * database/database.py, class DeadlineDatabase: the deadlines collection, one record per
 * task, keyed by `task_id`. The bot's dates are Python datetimes of local time, counted in
 * integer microseconds, so a day starts at a multiple of `DayMicros`. The collection holds
 * them as BSON dates, in whole milliseconds: pymongo drops the sub-millisecond digits both of
 * a stored deadline and of the bounds of a query (`BsonMillis`).
 */
module DeadlineDb {
  import opened Wrappers
  import opened Store

  function DeadlineKey(taskId: string): Key
  {
    Key("task_id", Str(taskId))
  }

  /**
   * `{**{"task_id": ..., "classroom_id": ..., "date": ...}, **additional}`, as the server stores
   * it: later keys win, and the date keeps whole milliseconds.
   */
  function DeadlineRecord(cid: string, taskId: string, date: int, additional: Record): (r: Record)
    ensures r.Keys == additional.Keys + {"task_id", "classroom_id", "date"}
    ensures forall f | f in additional :: r[f] == additional[f]
    ensures "task_id" !in additional ==> Matches(r, DeadlineKey(taskId))
    ensures "date" !in additional ==> r["date"] == Time(BsonMillis(date))
    ensures "classroom_id" !in additional ==> r["classroom_id"] == Str(cid)
  {
    map["task_id" := Str(taskId), "classroom_id" := Str(cid), "date" := Time(BsonMillis(date))] + additional
  }

  /** `add_deadline(classroom_id, task_id, date, additional)`: upload on the `task_id` key. */
  method AddDeadline(db: Database, cid: string, taskId: string, date: int, additional: Record)
    modifies db
    ensures db.records == Uploaded(old(db.records), DeadlineKey(taskId), DeadlineRecord(cid, taskId, date, additional))
  {
    db.Upload(DeadlineKey(taskId), DeadlineRecord(cid, taskId, date, additional));
  }

  /**
   * `add_deadline` keeps at most one record per task, and that record is the one just added:
   * setting a deadline again moves it rather than adding a second one.
   */
  lemma AddDeadlineReplaces(rs: seq<Record>, cid: string, taskId: string, date: int, additional: Record)
    requires UniqueOn(rs, "task_id")
    requires "task_id" !in additional
    ensures var out := Uploaded(rs, DeadlineKey(taskId), DeadlineRecord(cid, taskId, date, additional));
      && UniqueOn(out, "task_id")
      && FindOne(out, DeadlineKey(taskId)) == Some(DeadlineRecord(cid, taskId, date, additional))
  {
    var data := DeadlineRecord(cid, taskId, date, additional);
    UploadedUnique(rs, DeadlineKey(taskId), data);
    UploadedFindOne(rs, DeadlineKey(taskId), data);
  }

  /** Of two `add_deadline` calls for the same task, the later one wins. */
  lemma LatestDeadlineWins(rs: seq<Record>, taskId: string,
                           cid1: string, date1: int, extra1: Record,
                           cid2: string, date2: int, extra2: Record)
    requires "task_id" !in extra1 && "task_id" !in extra2
    ensures var key := DeadlineKey(taskId);
      var once := Uploaded(rs, key, DeadlineRecord(cid1, taskId, date1, extra1));
      var twice := Uploaded(once, key, DeadlineRecord(cid2, taskId, date2, extra2));
      && |twice| == |once|
      && FindOne(twice, key) == Some(DeadlineRecord(cid2, taskId, date2, extra2))
  {
    var key := DeadlineKey(taskId);
    var once := Uploaded(rs, key, DeadlineRecord(cid1, taskId, date1, extra1));
    UploadedFindOne(rs, key, DeadlineRecord(cid1, taskId, date1, extra1));
    UploadedFindOne(once, key, DeadlineRecord(cid2, taskId, date2, extra2));
  }

  /**
   * `get_deadlines_between(date_from, date_to)`: the records with `date_from <= date < date_to`,
   * compared as the server compares them, in whole milliseconds.
   */
  function DeadlinesBetween(rs: seq<Record>, from: int, until: int): (out: seq<Record>)
    ensures forall r: Record :: r in out <==>
      r in rs && "date" in r && r["date"].Time? && BsonMillis(from) <= r["date"].millis < BsonMillis(until)
  {
    Find(rs, Between("date", BsonMillis(from), BsonMillis(until)))
  }

  /**
   * A deadline just added is reported for a window exactly when its date lies inside the window,
   * all three taken in whole milliseconds; for a window on whole milliseconds, exactly when the
   * date itself lies inside it.
   */
  lemma AddedDeadlineInWindow(rs: seq<Record>, cid: string, taskId: string, date: int, from: int, until: int)
    ensures var r := DeadlineRecord(cid, taskId, date, map[]);
      r in DeadlinesBetween(Uploaded(rs, DeadlineKey(taskId), r), from, until) <==>
      BsonMillis(from) <= BsonMillis(date) < BsonMillis(until)
    ensures from % 1000 == 0 && until % 1000 == 0 ==>
      var r := DeadlineRecord(cid, taskId, date, map[]);
      r in DeadlinesBetween(Uploaded(rs, DeadlineKey(taskId), r), from, until) <==> from <= date < until
  {
  }

  /** Two adjacent windows report between them what the window spanning both reports, in natural order. */
  lemma {:induction false} AdjacentWindows(rs: seq<Record>, from: int, middle: int, until: int)
    requires from <= middle <= until
    ensures forall r: Record :: r in DeadlinesBetween(rs, from, until) <==>
      r in DeadlinesBetween(rs, from, middle) || r in DeadlinesBetween(rs, middle, until)
    ensures |DeadlinesBetween(rs, from, until)| ==
      |DeadlinesBetween(rs, from, middle)| + |DeadlinesBetween(rs, middle, until)|
  {
    if |rs| > 0 {
      assert rs == [rs[0]] + rs[1..];
      AdjacentWindows(rs[1..], from, middle, until);
      FindConcat([rs[0]], rs[1..], Between("date", BsonMillis(from), BsonMillis(until)));
      FindConcat([rs[0]], rs[1..], Between("date", BsonMillis(from), BsonMillis(middle)));
      FindConcat([rs[0]], rs[1..], Between("date", BsonMillis(middle), BsonMillis(until)));
    }
  }

  /** Microseconds in a day. */
  const DayMicros: int := 86_400_000_000

  /** Milliseconds in a day. */
  const DayMillis: int := 86_400_000

  /** 23:59:59 and 999 microseconds after midnight: `replace(hour=23, minute=59, second=59, microsecond=999)`. */
  const DayEndOffset: int := 86_399_000_999

  /** 23:59:59.000 after midnight, in milliseconds: where the server sees today's window end. */
  const DayEndMillis: int := 86_399_000

  /** The window `get_today_deadlines` asks for, given the current local time `now`. */
  function TodayWindow(now: int): (w: (int, int))
    ensures w.0 <= now < w.0 + DayMicros
    ensures w.0 % DayMicros == 0
    ensures w.1 == w.0 + DayEndOffset
  {
    var midnight := now - now % DayMicros;
    (midnight, midnight + DayEndOffset)
  }

  /** Today's window as the server receives it: from midnight to 23:59:59.000, in milliseconds. */
  lemma TodayWindowMillis(now: int)
    ensures BsonMillis(TodayWindow(now).0) == now / DayMicros * DayMillis
    ensures BsonMillis(TodayWindow(now).1) == now / DayMicros * DayMillis + DayEndMillis
  {
    var k := now / DayMicros;
    assert TodayWindow(now).0 == k * DayMicros == (k * DayMillis) * 1000;
  }

  /**
   * `get_today_deadlines()`, with the clock's reading passed in: the deadlines from today's
   * midnight up to, but not including, 23:59:59.000, the bound's 999 microseconds being lost
   * in the encoding.
   */
  function TodayDeadlines(rs: seq<Record>, now: int): (out: seq<Record>)
    ensures forall r: Record :: r in out <==>
      r in rs && "date" in r && r["date"].Time? &&
      now / DayMicros * DayMillis <= r["date"].millis < now / DayMicros * DayMillis + DayEndMillis
  {
    TodayWindowMillis(now);
    var w := TodayWindow(now);
    DeadlinesBetween(rs, w.0, w.1)
  }

  /**
   * A deadline stored for 23:59:59 or later on the day of `now` is not reported: the whole
   * last second of the day falls outside the window the server applies.
   */
  lemma TodayMissesLastSecond(rs: seq<Record>, now: int, date: int)
    requires date / DayMicros == now / DayMicros
    requires date % DayMicros >= DayEndMillis * 1000
    ensures forall r | r in rs && "date" in r && r["date"] == Time(BsonMillis(date)) :: r !in TodayDeadlines(rs, now)
  {
    var k := now / DayMicros;
    assert date == k * DayMicros + date % DayMicros;
    assert BsonMillis(date) >= k * DayMillis + DayEndMillis;
  }

  /** A deadline stored for earlier on the day of `now` than 23:59:59.000 is reported. */
  lemma TodayReportsSameDay(rs: seq<Record>, now: int, r: Record)
    requires r in rs && "date" in r && r["date"].Time?
    requires r["date"].millis / DayMillis == now / DayMicros
    requires r["date"].millis % DayMillis < DayEndMillis
    ensures r in TodayDeadlines(rs, now)
  {
    var m := r["date"].millis;
    assert m == m / DayMillis * DayMillis + m % DayMillis;
  }
}
