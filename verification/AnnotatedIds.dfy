/**
  Replica identifiers: a physical identifier, two colons, and a replica number.
 */
module AnnotatedIds {
  import opened Text
  import opened NodeAnnotations

  predicate StartsWithMark(s: string) {
    |s| >= 2 && s[0] == ':' && s[1] == ':'
  }

  /** The text before the first mark, or all of it. */
  function GetID(s: string): string {
    if s == "" || StartsWithMark(s) then "" else [s[0]] + GetID(s[1..])
  }

  predicate HasAnnotations(s: string) {
    s != "" && (StartsWithMark(s) || HasAnnotations(s[1..]))
  }

  /** The identifier and the replica number, zero when there is none. */
  function SplitID(s: string): (string, int) {
    GetIDPrefix(s);
    if HasAnnotations(s) then (GetID(s), Atoi(s[|GetID(s)| + 2..])) else (s, 0)
  }

  function NewAnnotatedID(id: string, replica: int): string {
    id + "::" + Itoa(replica)
  }

  lemma {:induction false} GetIDPrefix(s: string)
    ensures |GetID(s)| <= |s| && (HasAnnotations(s) ==> |GetID(s)| + 2 <= |s|)
    decreases |s|
  {
    if s != "" && !StartsWithMark(s) {
      GetIDPrefix(s[1..]);
    }
  }

  /** The mark is found where it was put unless an earlier one forms first. */
  lemma {:induction false} MarkFound(id: string, rest: string)
    requires !HasAnnotations(id + ":")
    ensures GetID(id + "::" + rest) == id && HasAnnotations(id + "::" + rest)
    decreases |id|
  {
    var s := id + "::" + rest;
    if id == "" {
      assert s[0] == ':' && s[1] == ':';
    } else {
      assert (id + ":")[1..] == id[1..] + ":" && s[1..] == id[1..] + "::" + rest;
      assert StartsWithMark(s) ==> StartsWithMark(id + ":") by {
        if |id| == 1 {
          assert s[1] == (id + ":")[1];
        }
      }
      MarkFound(id[1..], rest);
      assert [id[0]] + id[1..] == id;
    }
  }

  /** An earlier mark cuts the identifier short. */
  lemma {:induction false} EarlierMark(id: string, rest: string)
    requires HasAnnotations(id + ":")
    ensures |GetID(id + "::" + rest)| < |id|
    decreases |id|
  {
    var s := id + "::" + rest;
    assert ":"[1..] == "" && !HasAnnotations(":");
    assert id == "" ==> id + ":" == ":";
    assert (id + ":")[1..] == id[1..] + ":" && s[1..] == id[1..] + "::" + rest;
    if StartsWithMark(id + ":") {
      assert s[0] == ':' && s[1] == ':';
    } else if !StartsWithMark(s) {
      EarlierMark(id[1..], rest);
    }
  }

  /**
    Splitting undoes annotating if and only if the identifier holds no mark and does not
    end in a colon.
   */
  lemma AnnotatedRoundTrip(id: string, replica: int)
    requires MIN_INT64 <= replica <= MAX_INT64
    ensures SplitID(NewAnnotatedID(id, replica)) == (id, replica) <==> !HasAnnotations(id + ":")
  {
    var s := NewAnnotatedID(id, replica);
    if HasAnnotations(id + ":") {
      EarlierMark(id, Itoa(replica));
      NoLonger(id, replica);
    } else {
      MarkFound(id, Itoa(replica));
      assert s[|id| + 2..] == Itoa(replica);
      ItoaRoundTrip(replica, MIN_INT64, MAX_INT64);
    }
  }

  lemma NoLonger(id: string, replica: int)
    requires |GetID(NewAnnotatedID(id, replica))| < |id|
    ensures SplitID(NewAnnotatedID(id, replica)).0 != id
  {
  }

  /** An identifier without a mark is its own, with replica number 0. */
  lemma {:induction false} UnmarkedId(s: string)
    requires forall i :: 0 <= i < |s| - 1 ==> !(s[i] == ':' && s[i + 1] == ':')
    ensures !HasAnnotations(s) && GetID(s) == s && SplitID(s) == (s, 0)
    decreases |s|
  {
    if s != "" {
      UnmarkedId(s[1..]);
      assert [s[0]] + s[1..] == s;
    }
  }
}
