/**
  Serial execution on a plain map: the reference that each protocol is compared with.
 */
module Serial {
  import opened Common

  /** The plain map left by running transactions one after the other. */
  ghost function Replay(history: seq<map<Key, Value>>): map<Key, Value> {
    if history == [] then map[] else Replay(history[..|history| - 1]) + history[|history| - 1]
  }

  /** log lists exactly the committed timestamps, each once, in increasing order. */
  ghost predicate SerialOrder(log: seq<Timestamp>, commits: map<Timestamp, map<Key, Value>>) {
    && (forall i, j :: 0 <= i < j < |log| ==> log[i] < log[j])
    && (forall i :: 0 <= i < |log| ==> log[i] in commits)
    && (forall t :: t in commits ==> t in log)
  }

  /** The write sets of the transactions of a log, in the order of the log. */
  ghost function History(log: seq<Timestamp>, commits: map<Timestamp, map<Key, Value>>): (h: seq<map<Key, Value>>)
    requires forall i :: 0 <= i < |log| ==> log[i] in commits
    ensures |h| == |log|
  {
    seq(|log|, i requires 0 <= i < |log| => commits[log[i]])
  }

  /** A replay ends with the value of the last transaction that wrote the key. */
  lemma {:induction false} LastWriterWins(history: seq<map<Key, Value>>, k: Key, j: nat)
    requires j < |history| && k in history[j]
    requires forall i :: j < i < |history| ==> k !in history[i]
    ensures Lookup(Replay(history), k) == Some(history[j][k])
  {
    if j < |history| - 1 {
      LastWriterWins(history[..|history| - 1], k, j);
    }
  }

  /** A key that nobody wrote is absent from the replay. */
  lemma {:induction false} NobodyWrote(history: seq<map<Key, Value>>, k: Key)
    requires forall i :: 0 <= i < |history| ==> k !in history[i]
    ensures Lookup(Replay(history), k) == None
  {
    if history != [] {
      NobodyWrote(history[..|history| - 1], k);
    }
  }

  /** A replay has exactly the keys that some transaction wrote. */
  lemma {:induction false} ReplayHasIff(history: seq<map<Key, Value>>, k: Key)
    ensures k in Replay(history) <==> exists i :: 0 <= i < |history| && k in history[i]
  {
    if history != [] {
      var n := |history| - 1;
      ReplayHasIff(history[..n], k);
      if i :| 0 <= i < |history| && k in history[i] && i != n {
        assert k in history[..n][i];
      }
    }
  }

  /** Every finite set of commits has a serial order. */
  lemma SerialOrderExists(commits: map<Timestamp, map<Key, Value>>)
    ensures exists log :: SerialOrder(log, commits)
  {
    var log := Ascending(commits.Keys);
    assert SerialOrder(log, commits);
  }

  lemma {:induction false} Ascending(s: set<Timestamp>) returns (log: seq<Timestamp>)
    ensures forall i, j :: 0 <= i < j < |log| ==> log[i] < log[j]
    ensures forall t :: t in log <==> t in s
  {
    if s == {} {
      log := [];
    } else {
      var t := Latest(s);
      var earlier := Ascending(s - {t});
      log := earlier + [t];
      forall i | 0 <= i < |earlier| ensures log[i] < t {
        assert log[i] in earlier;
      }
    }
  }

  lemma {:induction false} Latest(s: set<Timestamp>) returns (t: Timestamp)
    requires s != {}
    ensures t in s && forall x :: x in s ==> x <= t
  {
    t :| t in s;
    if s != {t} {
      var u := Latest(s - {t});
      assert forall x :: x in s ==> x == t || x in s - {t};
      t := if t < u then u else t;
    }
  }

  /**
    A value read just before position `at` of a serial order is the value of the newest writer
    below it; `w` names that writer, or is the lower sentinel when there is none.
   */
  lemma ReadsNewestBelow(commits: map<Timestamp, map<Key, Value>>, log: seq<Timestamp>, at: nat,
                         bound: Timestamp, k: Key, w: Timestamp)
    requires SerialOrder(log, commits) && at <= |log|
    requires forall i :: 0 <= i < at ==> log[i] < bound
    requires forall i :: at <= i < |log| ==> bound <= log[i]
    requires forall x :: x in commits && x < bound && k in commits[x] ==> x <= w
    requires w in commits ==> w < bound
    requires forall x :: x in commits ==> MIN_TIMESTAMP < x
    requires w == MIN_TIMESTAMP || (w in commits && k in commits[w])
    ensures Lookup(Replay(History(log[..at], commits)), k)
         == if w == MIN_TIMESTAMP then None else Some(commits[w][k])
  {
    var h := History(log[..at], commits);
    if w == MIN_TIMESTAMP {
      NobodyWrote(h, k);
    } else {
      var j :| 0 <= j < |log| && log[j] == w;
      assert j < at;
      LastWriterWins(h, k, j);
    }
  }
}
