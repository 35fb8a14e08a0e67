/** script/mitgrate_v2/validate.js without the file I/O: the old entries grouped by
    raw library name and Berlin day, and the slots each group lacks. */
module Validation {
  import opened Collections
  import Slots
  import opened Migration

  /** The group of an entry here: the name as stored, not normalised. */
  function RawKeyOf(e: RawEntry): GroupKey {
    GroupKey(e.name, DayOf(e.at))
  }

  function RawKeys(raw: seq<RawEntry>): (ks: seq<GroupKey>)
    ensures |ks| == |raw| && forall i :: 0 <= i < |raw| ==> ks[i] == RawKeyOf(raw[i])
  {
    seq(|raw|, i requires 0 <= i < |raw| => RawKeyOf(raw[i]))
  }

  function RawGroups(raw: seq<RawEntry>): seq<GroupKey> {
    Dedup(RawKeys(raw))
  }

  /** The set of slots group `g` has readings for. */
  function Present(raw: seq<RawEntry>, g: GroupKey): set<int> {
    set i | 0 <= i < |raw| && RawKeyOf(raw[i]) == g :: ChunkOf(raw[i].at)
  }

  /** `allChunks.filter(c => !present.has(c))` for the slots `0..n-1`. */
  function MissingBelow(present: set<int>, n: nat): (r: seq<int>)
    ensures forall c :: c in r <==> 0 <= c < n && c !in present
    ensures forall i, j :: 0 <= i < j < |r| ==> r[i] < r[j]
    ensures forall i :: 0 <= i < |r| ==> 0 <= r[i] < n
  {
    if n == 0 then []
    else MissingBelow(present, n - 1) + (if n - 1 in present then [] else [n - 1])
  }

  /** The missing slots of group `g`, ascending. */
  function Missing(raw: seq<RawEntry>, g: GroupKey): seq<int> {
    MissingBelow(Present(raw, g), Slots.SlotsPerDay)
  }

  /** Every group with its missing slots, in group order. */
  function Checked(raw: seq<RawEntry>): (r: seq<(GroupKey, seq<int>)>)
    ensures |r| == |RawGroups(raw)|
    ensures forall i :: 0 <= i < |r| ==> r[i] == (RawGroups(raw)[i], Missing(raw, RawGroups(raw)[i]))
  {
    var gs := RawGroups(raw);
    seq(|gs|, i requires 0 <= i < |gs| => (gs[i], Missing(raw, gs[i])))
  }

  /** The groups that print a line: those with at least one missing slot, in order. */
  function Incomplete(checked: seq<(GroupKey, seq<int>)>): (r: seq<(GroupKey, seq<int>)>)
    ensures IsSubsequence(r, checked)
    ensures forall x :: multiset(r)[x] == if |x.1| > 0 then multiset(checked)[x] else 0
    ensures forall x :: x in r <==> x in checked && |x.1| > 0
  {
    Filter(checked, (x: (GroupKey, seq<int>)) => |x.1| > 0)
  }

  /** The lines printed for incomplete groups. */
  function Report(raw: seq<RawEntry>): seq<(GroupKey, seq<int>)> {
    Incomplete(Checked(raw))
  }

  /** `!anyMissing`: the success message is printed. */
  predicate AllComplete(raw: seq<RawEntry>) {
    |Report(raw)| == 0
  }

  /** Some entry of group `g` lies in slot `c`. */
  predicate HasSlot(raw: seq<RawEntry>, g: GroupKey, c: int) {
    exists i :: 0 <= i < |raw| && RawKeyOf(raw[i]) == g && ChunkOf(raw[i].at) == c
  }

  /** The group has an entry in each of the 144 slots. */
  predicate Complete(raw: seq<RawEntry>, g: GroupKey) {
    forall c :: 0 <= c < Slots.SlotsPerDay ==> HasSlot(raw, g, c)
  }

  /** A slot is missing from a group exactly when no entry of the group lies in it. */
  lemma MissingIff(raw: seq<RawEntry>, g: GroupKey, c: int)
    ensures c in Missing(raw, g) <==> 0 <= c < Slots.SlotsPerDay && !HasSlot(raw, g, c)
  {
    if HasSlot(raw, g, c) {
      var i :| 0 <= i < |raw| && RawKeyOf(raw[i]) == g && ChunkOf(raw[i].at) == c;
      assert c in Present(raw, g);
    }
    if c in Present(raw, g) {
      var i :| 0 <= i < |raw| && RawKeyOf(raw[i]) == g && ChunkOf(raw[i].at) == c;
    }
  }

  lemma CompleteIff(raw: seq<RawEntry>, g: GroupKey)
    ensures Complete(raw, g) <==> |Missing(raw, g)| == 0
  {
    if |Missing(raw, g)| > 0 {
      MissingIff(raw, g, Missing(raw, g)[0]);
    }
    if !Complete(raw, g) {
      var c :| 0 <= c < Slots.SlotsPerDay && !HasSlot(raw, g, c);
      MissingIff(raw, g, c);
    }
  }

  /** Without a report line, the group of each entry is complete. */
  lemma {:induction false} CompleteWhenSilent(raw: seq<RawEntry>, k: int)
    requires AllComplete(raw) && 0 <= k < |raw|
    ensures Complete(raw, RawKeyOf(raw[k]))
  {
    var gs := RawGroups(raw);
    var ch := Checked(raw);
    var g := RawKeyOf(raw[k]);
    assert RawKeys(raw)[k] == g;
    var j :| 0 <= j < |gs| && gs[j] == g;
    assert ch[j] in ch;
    assert ch[j] !in Report(raw);
    CompleteIff(raw, g);
  }

  /** A report line names the group of some entry that is incomplete. */
  lemma {:induction false} IncompleteWhenReported(raw: seq<RawEntry>) returns (k: int)
    requires !AllComplete(raw)
    ensures 0 <= k < |raw| && !Complete(raw, RawKeyOf(raw[k]))
  {
    var gs := RawGroups(raw);
    var ch := Checked(raw);
    var r := Incomplete(ch);
    assert r == Report(raw) && |r| > 0;
    assert r[0] in r;
    var j :| 0 <= j < |ch| && ch[j] == r[0];
    var g := gs[j];
    assert g in RawKeys(raw);
    k :| 0 <= k < |raw| && RawKeys(raw)[k] == g;
    CompleteIff(raw, g);
  }

  /** The success message appears iff the group of every entry is complete. */
  lemma {:induction false} SuccessIff(raw: seq<RawEntry>)
    ensures AllComplete(raw) <==> forall k :: 0 <= k < |raw| ==> Complete(raw, RawKeyOf(raw[k]))
  {
    if AllComplete(raw) {
      forall k | 0 <= k < |raw| ensures Complete(raw, RawKeyOf(raw[k])) {
        CompleteWhenSilent(raw, k);
      }
    } else {
      var k := IncompleteWhenReported(raw);
    }
  }

  /** The report lists incomplete groups only, each with its missing slots in ascending order. */
  lemma ReportLines(raw: seq<RawEntry>, x: (GroupKey, seq<int>))
    requires x in Report(raw)
    ensures x.0 in RawGroups(raw) && x.1 == Missing(raw, x.0) && !Complete(raw, x.0)
    ensures forall i, j :: 0 <= i < j < |x.1| ==> x.1[i] < x.1[j]
  {
    var ch := Checked(raw);
    var j :| 0 <= j < |ch| && ch[j] == x;
    CompleteIff(raw, x.0);
  }

  /** Validation groups by the stored name: two spellings of one library on one day are
      two groups here, while the migration merges them. */
  lemma SpellingsAreSeparateGroups(raw: seq<RawEntry>, i: int, j: int)
    requires 0 <= i < |raw| && 0 <= j < |raw|
    requires raw[i].name != raw[j].name && KeyOf(raw[i]) == KeyOf(raw[j])
    ensures RawKeyOf(raw[i]) in RawGroups(raw) && RawKeyOf(raw[j]) in RawGroups(raw)
    ensures RawKeyOf(raw[i]) != RawKeyOf(raw[j])
  {
    assert RawKeys(raw)[i] == RawKeyOf(raw[i]);
    assert RawKeys(raw)[j] == RawKeyOf(raw[j]);
  }
}
