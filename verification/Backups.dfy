/**
 What unwiring leaves in a client's configuration: everything that was there
 before, exactly, and backups of states the configuration really was in.
 */
module Backups {
  import opened Numerals

  /** A file's digest stands for its contents. */
  datatype FileState = FileState(size: nat, digest: string)

  type Snapshot = map<string, FileState>

  /** `.bak-` with a date and a time of day. */
  predicate Stamp(s: string) {
    |s| == 20 && s[..5] == ".bak-" && Digits(s[5..13]) && s[13] == '-' && Digits(s[14..])
  }

  predicate EndsInStamp(key: string) {
    |key| >= 20 && Stamp(key[|key| - 20..])
  }

  /** A name in which `.bak-` with a date and time is found at the end, or before a line break that ends it. */
  predicate BackupName(key: string) {
    EndsInStamp(key) || (key != "" && key[|key| - 1] == '\n' && EndsInStamp(key[..|key| - 1]))
  }

  /** `\.bak-[0-9]{8}-[0-9]{6}$`, found where `before` ends. */
  ghost predicate NamedAfter(key: string, before: string, date: string, time: string, end: string) {
    && |date| == 8 && |time| == 6 && Digits(date) && Digits(time)
    && (end == "" || end == "\n") && key == before + (".bak-" + date + "-" + time) + end
  }

  lemma StampIs(s: string, date: string, time: string)
    requires |date| == 8 && |time| == 6
    ensures s == ".bak-" + date + "-" + time <==> |s| == 20 && s[..5] == ".bak-" && s[5..13] == date && s[13] == '-' && s[14..] == time
  {
    if |s| == 20 && s[..5] == ".bak-" && s[5..13] == date && s[13] == '-' && s[14..] == time {
      assert s == s[..5] + s[5..13] + [s[13]] + s[14..];
    }
  }

  lemma EndsInStampIff(key: string)
    ensures EndsInStamp(key) <==> exists before, date, time :: NamedAfter(key, before, date, time, "")
  {
    if EndsInStamp(key) {
      var s := key[|key| - 20..];
      StampIs(s, s[5..13], s[14..]);
      assert key == key[..|key| - 20] + s + "";
      assert NamedAfter(key, key[..|key| - 20], s[5..13], s[14..], "");
    }
    forall before, date, time | NamedAfter(key, before, date, time, "") ensures EndsInStamp(key) {
      StampIs(key[|key| - 20..], date, time);
      assert key[|key| - 20..] == ".bak-" + date + "-" + time;
    }
  }

  /** The names of backups, as the expression that finds them. */
  lemma BackupNameIff(key: string)
    ensures BackupName(key) <==> exists before, date, time, end :: NamedAfter(key, before, date, time, end)
  {
    EndsInStampIff(key);
    if BackupName(key) {
      if EndsInStamp(key) {
        var before, date, time :| NamedAfter(key, before, date, time, "");
      } else {
        var front := key[..|key| - 1];
        EndsInStampIff(front);
        var before, date, time :| NamedAfter(front, before, date, time, "");
        assert key == front + "\n" == before + (".bak-" + date + "-" + time) + "\n";
        assert NamedAfter(key, before, date, time, "\n");
      }
    }
    forall before, date, time, end | NamedAfter(key, before, date, time, end) ensures BackupName(key) {
      if end == "\n" {
        var front := key[..|key| - 1];
        assert front == before + (".bak-" + date + "-" + time) + "";
        EndsInStampIff(front);
        assert NamedAfter(front, before, date, time, "");
      } else {
        assert NamedAfter(key, before, date, time, "");
      }
    }
  }

  predicate Known(digest: string, baseline: Snapshot, wired: Snapshot) {
    (exists k :: k in baseline && baseline[k].digest == digest) || (exists k :: k in wired && wired[k].digest == digest)
  }

  /** What must hold of a restored configuration. */
  predicate Restores(baseline: Snapshot, wired: Snapshot, restored: Snapshot) {
    && (forall k :: k in baseline ==> k in restored && restored[k] == baseline[k])
    && forall k :: k in restored && k !in baseline ==> BackupName(k) && Known(restored[k].digest, baseline, wired)
  }

  /** The states the configuration was in, before wiring and after. */
  function States(baseline: Snapshot, wired: Snapshot): set<string> {
    (set k | k in baseline :: baseline[k].digest) + (set k | k in wired :: wired[k].digest)
  }

  /**
   A configuration is restored exactly if every file from before is as it was and
   every other is named as a backup and holds a state the configuration was in.
   */
  lemma RestoresIff(baseline: Snapshot, wired: Snapshot, restored: Snapshot)
    ensures Restores(baseline, wired, restored) <==>
              && (forall k :: k in baseline ==> k in restored && restored[k] == baseline[k])
              && forall k :: k in restored && k !in baseline ==>
                   && restored[k].digest in States(baseline, wired)
                   && exists before, date, time, end :: NamedAfter(k, before, date, time, end)
  {
    forall k | k in restored { BackupNameIff(k); }
    forall d: string ensures Known(d, baseline, wired) <==> d in States(baseline, wired) {}
  }

  datatype Accounting = Accounted(extras: Snapshot) | NotRestored | Unexpected | UnknownState

  method AccountManagedBackups(baseline: Snapshot, wired: Snapshot, restored: Snapshot) returns (r: Accounting)
    ensures r.Accounted? <==> Restores(baseline, wired, restored)
    ensures r.Accounted? ==> r.extras == restored - baseline.Keys
    ensures r.NotRestored? <==> exists k :: k in baseline && (k !in restored || restored[k] != baseline[k])
    ensures r.Unexpected? ==> exists k :: k in restored && k !in baseline && !BackupName(k)
    ensures r.UnknownState? ==> exists k :: k in restored && k !in baseline && !Known(restored[k].digest, baseline, wired)
  {
    var todo := baseline.Keys;
    while todo != {}
      invariant todo <= baseline.Keys
      invariant forall k :: k in baseline && k !in todo ==> k in restored && restored[k] == baseline[k]
    {
      var key :| key in todo;
      if key !in restored || restored[key] != baseline[key] { return NotRestored; }
      todo := todo - {key};
    }
    var extras := restored - baseline.Keys;
    var left := extras.Keys;
    while left != {}
      invariant left <= extras.Keys
      invariant forall k :: k in extras && k !in left ==> BackupName(k) && Known(extras[k].digest, baseline, wired)
    {
      var key :| key in left;
      assert key in restored && key !in baseline;
      if !BackupName(key) { return Unexpected; }
      if !Known(extras[key].digest, baseline, wired) { return UnknownState; }
      left := left - {key};
    }
    r := Accounted(extras);
  }

  /**
   Conservation: an accepted configuration is the baseline and its accounted
   backups, and deleting those backups gives the baseline back exactly.
   */
  lemma DeletingBackupsRestores(baseline: Snapshot, wired: Snapshot, restored: Snapshot, extras: Snapshot)
    requires Restores(baseline, wired, restored) && extras == restored - baseline.Keys
    ensures restored == baseline + extras && restored - extras.Keys == baseline
    ensures extras.Keys !! baseline.Keys
    ensures forall k :: k in extras ==> Known(extras[k].digest, baseline, wired)
  {
    assert forall k :: k in restored - extras.Keys <==> k in baseline;
  }
}
