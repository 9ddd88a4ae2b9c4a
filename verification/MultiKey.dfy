/** Multi-key channels: several keys in one newline-separated column, with status, disabled time and reason kept in
    side maps indexed by position.  The administrator's actions edit them and store the row with Channel.Update. */
module MultiKey {
  import opened Options
  import opened Lists
  import ModelNames
  import Delimited

  const ENABLED: int := 1
  const MANUALLY_DISABLED: int := 2
  const AUTO_DISABLED: int := 3

  /** Side maps, by key position. */
  datatype Info = Info(status: map<int, int>, times: map<int, int>, reasons: map<int, string>)

  datatype Row = Row(key: string, size: int, info: Info)

  datatype KeyStatus = KeyStatus(key: string, status: int, time: int, reason: string)

  function Keys(row: Row): seq<string> {
    Delimited.ReadList(row.key, '\n')
  }

  function StatusOf(info: Info, i: int): int {
    if i in info.status then info.status[i] else ENABLED
  }

  /** What the status listing shows for one key: time and reason only while the key is not enabled. */
  function EntryOf(key: string, i: int, info: Info): KeyStatus {
    var s := StatusOf(info, i);
    KeyStatus(key, s,
              if s != ENABLED && i in info.times then info.times[i] else 0,
              if s != ENABLED && i in info.reasons then info.reasons[i] else "")
  }

  function ListingOf(keys: seq<string>, info: Info): (l: seq<KeyStatus>)
    ensures |l| == |keys|
    ensures forall i :: 0 <= i < |keys| ==> l[i] == EntryOf(keys[i], i, info)
  {
    seq(|keys|, i requires 0 <= i < |keys| => EntryOf(keys[i], i, info))
  }

  /** get_key_status before filtering and paging. */
  function Listing(row: Row): seq<KeyStatus> {
    ListingOf(Keys(row), row.info)
  }

  // ---------- storing ----------

  /** Channel.Update: recount the keys, drop statuses past the end, and save.  An empty key column is not written
      (zero fields are skipped), so the stored keys stay. */
  function Stored(before: Row, key: string, info: Info): Row {
    var key' := if key != "" then key else before.key;
    var size := |Delimited.ReadList(key', '\n')|;
    Row(key', size, info.(status := map i | i in info.status && i < size :: info.status[i]))
  }

  /** What an action does with the copy of the channel it has loaded: nothing, or save a key column and side maps. */
  datatype Edit = Refused | Save(key: string, info: Info)

  /** Saving an edit over the row as it is by then. */
  function Commit(row: Row, e: Edit): Row {
    if e.Refused? then row else Stored(row, e.key, e.info)
  }

  // ---------- actions ----------

  datatype Kept = Kept(keys: seq<string>, info: Info)

  /** Appends the key at position i with its side entries, at the next free position.  `always` says whether time and
      reason of an enabled key are carried over too, as deleting a single key does. */
  function Carry(k: Kept, keys: seq<string>, info: Info, i: nat, always: bool): Kept
    requires i < |keys|
  {
    var j, s := |k.keys|, StatusOf(info, i);
    Kept(k.keys + [keys[i]],
         Info(if s != ENABLED then k.info.status[j := s] else k.info.status,
              if (always || s != ENABLED) && i in info.times then k.info.times[j := info.times[i]] else k.info.times,
              if (always || s != ENABLED) && i in info.reasons then k.info.reasons[j := info.reasons[i]]
              else k.info.reasons))
  }

  /** The first n keys without those at the positions in `drop`, renumbered. */
  function Retain(keys: seq<string>, info: Info, drop: set<int>, always: bool, n: nat): Kept
    requires n <= |keys|
  {
    if n == 0 then Kept([], Info(map[], map[], map[]))
    else
      var k := Retain(keys, info, drop, always, n - 1);
      if n - 1 in drop then k else Carry(k, keys, info, n - 1, always)
  }

  predicate BadIndex(row: Row, index: Option<int>) {
    index.None? || index.value < 0 || index.value >= row.size
  }

  function Deletion(copy: Row, index: Option<int>): Edit {
    if BadIndex(copy, index) then Refused
    else
      var k := Retain(Keys(copy), copy.info, {index.value}, true, |Keys(copy)|);
      if k.keys == [] then Refused else Save(Delimited.Join(k.keys, '\n'), k.info)
  }

  function DeleteKey(row: Row, index: Option<int>): Row {
    Commit(row, Deletion(row, index))
  }

  /** Positions of automatically disabled keys. */
  function Failed(row: Row): set<int> {
    set i | 0 <= i < |Keys(row)| && StatusOf(row.info, i) == AUTO_DISABLED
  }

  function DisabledDeletion(copy: Row): Edit {
    if Failed(copy) == {} then Refused
    else
      var k := Retain(Keys(copy), copy.info, Failed(copy), false, |Keys(copy)|);
      Save(Delimited.Join(k.keys, '\n'), k.info)
  }

  function DeleteDisabledKeys(row: Row): Row {
    Commit(row, DisabledDeletion(row))
  }

  function Disabling(copy: Row, index: Option<int>): Edit {
    if BadIndex(copy, index) then Refused
    else Save(copy.key, copy.info.(status := copy.info.status[index.value := MANUALLY_DISABLED]))
  }

  function DisableKey(row: Row, index: Option<int>): Row {
    Commit(row, Disabling(row, index))
  }

  function Enabling(copy: Row, index: Option<int>): Edit {
    if BadIndex(copy, index) then Refused
    else
      var gone := {index.value};
      Save(copy.key, Info(copy.info.status - gone, copy.info.times - gone, copy.info.reasons - gone))
  }

  function EnableKey(row: Row, index: Option<int>): Row {
    Commit(row, Enabling(row, index))
  }

  function EnableAllKeys(row: Row): Row {
    Stored(row, row.key, Info(map[], map[], map[]))
  }

  /** Statuses after turning off the enabled ones among the first n keys. */
  function TurnedOff(status: map<int, int>, n: nat): map<int, int> {
    if n == 0 then status
    else
      var m := TurnedOff(status, n - 1);
      if n - 1 !in m || m[n - 1] == ENABLED then m[n - 1 := MANUALLY_DISABLED] else m
  }

  /** disable_all_keys: only enabled keys change; without one, nothing is stored. */
  function AllDisabling(copy: Row): Edit {
    var status := TurnedOff(copy.info.status, if copy.size < 0 then 0 else copy.size);
    if status == copy.info.status then Refused else Save(copy.key, copy.info.(status := status))
  }

  function DisableAllKeys(row: Row): Row {
    Commit(row, AllDisabling(row))
  }

  function PositionOf(keys: seq<string>, key: string): (i: nat)
    ensures keys != [] ==> i < |keys|
    ensures key in keys ==> keys[i] == key
    ensures key !in keys ==> i == 0
  {
    if key !in keys || keys[0] == key then 0 else 1 + PositionOf(keys[1..], key)
  }

  /** handlerMultiKeyUpdate: the entries of the key's position, or of the first when it is not found.  Enabling a key
      leaves its time and reason. */
  function KeyReported(row: Row, using: string, status: int, now: int, reason: string): Row {
    if Keys(row) == [] then row
    else
      var i := PositionOf(Keys(row), using);
      if status == ENABLED then row.(info := row.info.(status := row.info.status - {i}))
      else
        row.(info := Info(row.info.status[i := status], row.info.times[i := now], row.info.reasons[i := reason]))
  }

  function AutoDisable(row: Row, using: string, now: int, reason: string): Row {
    KeyReported(row, using, AUTO_DISABLED, now, reason)
  }

  /** UpdateChannel in append mode: the request's new keys, trimmed and not already present, follow the old ones. */
  function Appending(copy: Row, input: string): Edit {
    if copy.key == "" then Save(input, copy.info)
    else
      var more := ModelNames.Normalize(Delimited.Split(input, '\n'));
      var fresh' := Drop(more, Elems(ModelNames.NonBlank(Keys(copy))));
      Save(Delimited.Join(Keys(copy) + fresh', '\n'), copy.info)
  }

  function AppendKeys(row: Row, input: string): Row {
    Commit(row, Appending(row, input))
  }

  // ---------- what deleting does to the listing ----------

  /** The list without the positions in `drop`. */
  function Without<T>(xs: seq<T>, drop: set<int>): seq<T> {
    if xs == [] then []
    else Without(xs[..|xs| - 1], drop) + if |xs| - 1 in drop then [] else [xs[|xs| - 1]]
  }

  ghost predicate Within<T>(m: map<int, T>, n: int) {
    forall i :: i in m ==> 0 <= i < n
  }

  ghost predicate InfoWithin(info: Info, n: int) {
    Within(info.status, n) && Within(info.times, n) && Within(info.reasons, n)
  }

  /** The count is right and every status belongs to a key. */
  ghost predicate Sound(row: Row) {
    row.size == |Keys(row)| && Within(row.info.status, row.size)
  }

  /** No key is blank either, and every time and reason belongs to a key. */
  ghost predicate Valid(row: Row) {
    Sound(row) && Delimited.NoEmpty(Keys(row)) && InfoWithin(row.info, row.size)
  }

  lemma CarryEntry(k: Kept, keys: seq<string>, info: Info, i: nat, always: bool)
    requires i < |keys| && InfoWithin(k.info, |k.keys|)
    ensures var k' := Carry(k, keys, info, i, always);
            && EntryOf(keys[i], |k.keys|, k'.info) == EntryOf(keys[i], i, info)
            && InfoWithin(k'.info, |k'.keys|)
            && forall j :: 0 <= j < |k.keys| ==> EntryOf(k.keys[j], j, k'.info) == EntryOf(k.keys[j], j, k.info)
  {
  }

  lemma CarryGrowsListing(k: Kept, keys: seq<string>, info: Info, i: nat, always: bool)
    requires i < |keys| && InfoWithin(k.info, |k.keys|)
    ensures var k' := Carry(k, keys, info, i, always);
            ListingOf(k'.keys, k'.info) == ListingOf(k.keys, k.info) + [EntryOf(keys[i], i, info)]
  {
    CarryEntry(k, keys, info, i, always);
  }

  /** Retaining filters the listing and renumbers it. */
  lemma {:induction false} RetainFilters(keys: seq<string>, info: Info, drop: set<int>, always: bool, n: nat)
    requires n <= |keys|
    ensures var k := Retain(keys, info, drop, always, n);
            && ListingOf(k.keys, k.info) == Without(ListingOf(keys, info)[..n], drop)
            && InfoWithin(k.info, |k.keys|)
            && (forall j :: 0 <= j < |k.keys| ==> k.keys[j] in keys)
  {
    if n > 0 {
      RetainFilters(keys, info, drop, always, n - 1);
      var k, l := Retain(keys, info, drop, always, n - 1), ListingOf(keys, info)[..n];
      assert l[..|l| - 1] == ListingOf(keys, info)[..n - 1];
      if n - 1 !in drop {
        CarryEntry(k, keys, info, n - 1, always);
        CarryGrowsListing(k, keys, info, n - 1, always);
      }
    }
  }

  lemma KeysAreFree(row: Row)
    ensures Delimited.AllFree(Keys(row), '\n')
  {
    if row.key != "" { Delimited.SplitIsFree(Delimited.TrimRight(Delimited.TrimLeft(row.key, '\n'), '\n'), '\n'); }
  }

  /** Dropping statuses past the end does not show in the listing. */
  lemma StoredListing(before: Row, key: string, info: Info)
    ensures var row := Stored(before, key, info);
            row.size == |Keys(row)| && Listing(row) == ListingOf(Keys(row), info)
            && (Within(info.status, row.size) ==> row.info == info)
  {
    var row := Stored(before, key, info);
    if Within(info.status, row.size) {
      assert (map i | i in info.status && i < row.size :: info.status[i]) == info.status;
    }
  }

  /** Storing a list that begins and ends with a non-blank key keeps it with its side maps.  Of any other list keys are
      lost, or it is not stored at all. */
  lemma StoredKeeps(before: Row, keys: seq<string>, info: Info)
    requires keys != [] && Delimited.AllFree(keys, '\n')
    ensures var row := Stored(before, Delimited.Join(keys, '\n'), info);
            if Delimited.EndsProper(keys)
            then Keys(row) == keys && row.size == |keys| && Listing(row) == ListingOf(keys, info)
                 && (Within(info.status, |keys|) ==> row.info == info)
            else |Keys(row)| < |keys| || row.key == before.key
  {
    Delimited.RoundTripIff(keys, '\n');
    StoredListing(before, Delimited.Join(keys, '\n'), info);
  }

  lemma {:induction false} WithoutLength<T>(xs: seq<T>, drop: set<int>)
    ensures |Without(xs, drop)| <= |xs|
    ensures |Without(xs, drop)| == |xs| <==> forall i :: 0 <= i < |xs| ==> i !in drop
    ensures Without(xs, drop) == [] <==> forall i :: 0 <= i < |xs| ==> i in drop
    ensures forall x :: x in Without(xs, drop) ==> x in xs
  {
    if xs != [] { WithoutLength(xs[..|xs| - 1], drop); }
  }

  lemma {:induction false} RetainKeys(keys: seq<string>, info: Info, drop: set<int>, always: bool, n: nat)
    requires n <= |keys|
    ensures Retain(keys, info, drop, always, n).keys == Without(keys[..n], drop)
  {
    if n > 0 {
      RetainKeys(keys, info, drop, always, n - 1);
      assert keys[..n][..n - 1] == keys[..n - 1];
    }
  }

  /** Storing what is retained filters the listing exactly when the keys left begin and end with a non-blank one. */
  lemma RetainedListing(row: Row, drop: set<int>, always: bool)
    requires exists i :: 0 <= i < |Keys(row)| && i in drop
    ensures var k, left := Retain(Keys(row), row.info, drop, always, |Keys(row)|), Without(Keys(row), drop);
            var r := Stored(row, Delimited.Join(k.keys, '\n'), k.info);
            && k.keys == left && InfoWithin(k.info, |left|) && |left| < |Keys(row)|
            && (Listing(r) == Without(Listing(row), drop) <==> Delimited.EndsProper(left))
            && (Delimited.EndsProper(left) ==> Keys(r) == left && r.info == k.info)
  {
    var keys, left := Keys(row), Without(Keys(row), drop);
    var k := Retain(keys, row.info, drop, always, |keys|);
    RetainKeys(keys, row.info, drop, always, |keys|);
    assert keys[..|keys|] == keys && ListingOf(keys, row.info)[..|keys|] == Listing(row);
    RetainFilters(keys, row.info, drop, always, |keys|);
    WithoutLength(keys, drop);
    if left != [] {
      KeysAreFree(row);
      forall j | 0 <= j < |left| ensures Delimited.Free(left[j], '\n') {
        assert left[j] in left;
        var i :| 0 <= i < |keys| && keys[i] == left[j];
      }
      StoredKeeps(row, left, k.info);
    }
  }

  /** delete_key: a bad index or the last key is refused.  Otherwise the listing loses exactly that key, the rest being
      renumbered, if and only if the keys left begin and end with a non-blank one (or none was taken out). */
  lemma DeleteKeyFilters(row: Row, index: Option<int>)
    ensures var r := DeleteKey(row, index);
            if index.None? || index.value < 0 || row.size <= index.value || Without(Keys(row), {index.value}) == []
            then r == row
            else
              var left := Without(Keys(row), {index.value});
              Listing(r) == Without(Listing(row), {index.value}) <==> Delimited.EndsProper(left) || left == Keys(row)
  {
    if !BadIndex(row, index) {
      var keys, drop := Keys(row), {index.value};
      WithoutLength(keys, drop);
      if index.value < |keys| {
        RetainedListing(row, drop, true);
      } else {
        OutOfRangeKeeps(row, drop);
      }
    }
  }

  /** The entry of the side map at p is that of the old one at q, or there is none at either. */
  ghost predicate Moved<T>(after: map<int, T>, p: int, before: map<int, T>, q: int, carried: bool) {
    (p in after <==> carried && q in before) && (p in after ==> after[p] == before[q])
  }

  /** Where the key at p of the remaining list stood. */
  function Was(j: int, p: int): int {
    if p < j then p else p + 1
  }

  /** Both side maps have at p what the old ones had at q, if it is carried over. */
  ghost predicate BothMoved(after: Info, p: int, before: Info, q: int, carried: bool) {
    Moved(after.times, p, before.times, q, carried) && Moved(after.reasons, p, before.reasons, q, carried)
  }

  /** What is kept at p comes with the time and reason it had before the key at j went. */
  ghost predicate MovedAt(k: Kept, info: Info, j: int, always: bool, p: int) {
    BothMoved(k.info, p, info, Was(j, p), always || StatusOf(info, Was(j, p)) != ENABLED)
  }

  lemma CarryAdds(k: Kept, keys: seq<string>, info: Info, i: nat, always: bool, j: int)
    requires i < |keys| && InfoWithin(k.info, |k.keys|) && i == Was(j, |k.keys|)
    ensures MovedAt(Carry(k, keys, info, i, always), info, j, always, |k.keys|)
  {
  }

  lemma CarryLeaves(k: Kept, keys: seq<string>, info: Info, i: nat, always: bool, j: int, p: nat)
    requires i < |keys| && p < |k.keys| && MovedAt(k, info, j, always, p)
    ensures MovedAt(Carry(k, keys, info, i, always), info, j, always, p)
  {
  }

  lemma RetainIsWithin(keys: seq<string>, info: Info, drop: set<int>, always: bool, n: nat)
    requires n <= |keys|
    ensures InfoWithin(Retain(keys, info, drop, always, n).info, |Retain(keys, info, drop, always, n).keys|)
  {
    RetainFilters(keys, info, drop, always, n);
  }

  lemma {:induction false} RetainMoves(keys: seq<string>, info: Info, j: nat, always: bool, n: nat, p: nat)
    requires n <= |keys| && p < (if n <= j then n else n - 1)
    ensures MovedAt(Retain(keys, info, {j}, always, n), info, j, always, p)
  {
    var k := Retain(keys, info, {j}, always, n - 1);
    RetainLength(keys, info, j, always, n - 1);
    if n - 1 == j {
      RetainMoves(keys, info, j, always, n - 1, p);
    } else {
      assert Retain(keys, info, {j}, always, n) == Carry(k, keys, info, n - 1, always);
      if p < |k.keys| {
        RetainMoves(keys, info, j, always, n - 1, p);
        CarryLeaves(k, keys, info, n - 1, always, j, p);
      } else {
        RetainIsWithin(keys, info, {j}, always, n - 1);
        CarryAdds(k, keys, info, n - 1, always, j);
      }
    }
  }

  lemma {:induction false} RetainLength(keys: seq<string>, info: Info, j: nat, always: bool, n: nat)
    requires n <= |keys|
    ensures |Retain(keys, info, {j}, always, n).keys| == if n <= j then n else n - 1
  {
    if n > 0 { RetainLength(keys, info, j, always, n - 1); }
  }

  /** Deleting one key moves the stored times and reasons with the others, also of those that are enabled. */
  lemma DeleteKeyMoves(row: Row, j: nat, p: nat)
    requires j < row.size && j < |Keys(row)| && p < |Keys(row)| - 1
    requires Delimited.EndsProper(Without(Keys(row), {j}))
    ensures BothMoved(DeleteKey(row, Some(j)).info, p, row.info, Was(j, p), true)
  {
    RetainedListing(row, {j}, true);
    RetainLength(Keys(row), row.info, j, true, |Keys(row)|);
    RetainMoves(Keys(row), row.info, j, true, |Keys(row)|, p);
  }

  /** An index past the keys, which a wrong count admits, takes nothing out. */
  lemma OutOfRangeKeeps(row: Row, drop: set<int>)
    requires forall i :: 0 <= i < |Keys(row)| ==> i !in drop
    ensures var k := Retain(Keys(row), row.info, drop, true, |Keys(row)|);
            && Without(Keys(row), drop) == k.keys == Keys(row)
            && (Keys(row) != [] ==>
                 Listing(Stored(row, Delimited.Join(k.keys, '\n'), k.info)) == Without(Listing(row), drop))
  {
    var keys := Keys(row);
    var k := Retain(keys, row.info, drop, true, |keys|);
    RetainKeys(keys, row.info, drop, true, |keys|);
    assert keys[..|keys|] == keys && ListingOf(keys, row.info)[..|keys|] == Listing(row);
    RetainFilters(keys, row.info, drop, true, |keys|);
    WithoutAgrees(keys, keys, drop);
    WithoutAll(keys, drop);
    WithoutAll(Listing(row), drop);
    if keys != [] {
      KeysAreFree(row);
      StoredKeeps(row, keys, k.info);
      Delimited.ReadListEnds(row.key, '\n');
      Delimited.JoinFacts(keys, '\n');
    }
  }

  lemma {:induction false} WithoutAll<T>(xs: seq<T>, drop: set<int>)
    requires forall i :: 0 <= i < |xs| ==> i !in drop
    ensures Without(xs, drop) == xs
  {
    if xs != [] { WithoutAll(xs[..|xs| - 1], drop); }
  }

  /** delete_disabled_keys does what it says if and only if no key is automatically disabled or the keys left begin and
      end with a non-blank one.  In particular it does not when all keys are automatically disabled. */
  lemma DeleteDisabledWorksIff(row: Row)
    ensures Listing(DeleteDisabledKeys(row)) == Without(Listing(row), Failed(row)) <==>
              Failed(row) == {} || Delimited.EndsProper(Without(Keys(row), Failed(row)))
  {
    if Failed(row) == {} {
      WithoutNothing(Listing(row));
    } else {
      RetainedListing(row, Failed(row), false);
    }
  }

  /** When all keys are automatically disabled nothing is deleted and every key comes back enabled: the emptied key
      column is not stored but the emptied side maps are. */
  lemma AllFailedComeBack(row: Row)
    requires Keys(row) != [] && forall i :: 0 <= i < |Keys(row)| ==> i in Failed(row)
    ensures var r := DeleteDisabledKeys(row);
            && Keys(r) == Keys(row)
            && forall i :: 0 <= i < |Keys(row)| ==> Listing(r)[i] == KeyStatus(Keys(row)[i], ENABLED, 0, "")
  {
    assert 0 in Failed(row);
    RetainedListing(row, Failed(row), false);
    WithoutLength(Keys(row), Failed(row));
  }

  lemma BlankRetained(first: string, last: string, info: Info)
    requires info == Info(map[0 := AUTO_DISABLED, 2 := MANUALLY_DISABLED], map[], map[])
    ensures Retain([first, "", last], info, {0}, false, 3) ==
            Kept(["", last], Info(map[1 := MANUALLY_DISABLED], map[], map[]))
  {
    var keys := [first, "", last];
    assert Retain(keys, info, {0}, false, 1) == Kept([], Info(map[], map[], map[]));
    assert Retain(keys, info, {0}, false, 2) == Kept([""], Info(map[], map[], map[]));
  }

  /** A blank key between two others, the first automatically and the last manually disabled: deleting the disabled keys
      leaves the last one, enabled. */
  lemma BlankKeyLosesStatus(row: Row, first: string, last: string)
    requires Keys(row) == [first, "", last] && Delimited.Free(last, '\n') && last != ""
    requires row.info == Info(map[0 := AUTO_DISABLED, 2 := MANUALLY_DISABLED], map[], map[])
    ensures Listing(row)[2] == KeyStatus(last, MANUALLY_DISABLED, 0, "")
    ensures Listing(DeleteDisabledKeys(row)) == [KeyStatus(last, ENABLED, 0, "")]
  {
    forall i | 0 <= i < 3 ensures i in Failed(row) <==> i == 0 {
      assert i in Failed(row) <==> StatusOf(row.info, i) == AUTO_DISABLED;
    }
    assert Failed(row) == {0};
    BlankRetained(first, last, row.info);
    TrimmedToLast(last);
    var k := Kept(["", last], Info(map[1 := MANUALLY_DISABLED], map[], map[]));
    assert DeleteDisabledKeys(row) == Stored(row, Delimited.Join(k.keys, '\n'), k.info);
    StoredListing(row, Delimited.Join(k.keys, '\n'), k.info);
  }

  /** Creating a channel from three lines, the middle one a space, stores such keys. */
  lemma BlankKeyIsStored(first: string, last: string)
    requires Delimited.Free(first, '\n') && Delimited.Free(last, '\n') && first != "" && last != ""
    requires ModelNames.Trimmed(first) && ModelNames.Trimmed(last)
    ensures Keys(Created(Delimited.Join([first, " ", last], '\n'))) == [first, "", last]
  {
    var lines := [first, " ", last];
    Delimited.SplitJoin(lines, '\n');
    assert lines[..2] == [first, " "] && lines[..2][..1] == [first] && [first][..0] == [];
    ModelNames.TrimSpaceTrims(first);
    ModelNames.TrimSpaceTrims(last);
    assert ModelNames.TrimSpace(" ") == "";
    assert CleanKeys([first]) == [first];
    assert CleanKeys([first, " "]) == [first, ""];
    assert CleanKeys(lines) == [first, "", last];
    Delimited.RoundTripIff([first, "", last], '\n');
  }

  lemma TrimmedToLast(last: string)
    requires Delimited.Free(last, '\n') && last != ""
    ensures Delimited.Join(["", last], '\n') != "" && Delimited.ReadList(Delimited.Join(["", last], '\n'), '\n') == [last]
  {
    assert ["", last][1..] == [last];
    var s := Delimited.Join(["", last], '\n');
    assert s == ['\n'] + last && s[1..] == last;
    assert last[0] in last && last[|last| - 1] in last;
    assert Delimited.TrimLeft(s, '\n') == last;
    Delimited.SplitPrefix(last, "", '\n');
  }

  lemma {:induction false} WithoutNothing<T>(xs: seq<T>)
    ensures Without(xs, {}) == xs
  {
    if xs != [] { WithoutNothing(xs[..|xs| - 1]); }
  }

  // ---------- appending ----------

  /** What appending adds. */
  function Added(row: Row, input: string): seq<string> {
    Drop(ModelNames.Normalize(Delimited.Split(input, '\n')), Elems(ModelNames.NonBlank(Keys(row))))
  }

  lemma AddedIsProper(row: Row, input: string)
    ensures Delimited.AllFree(Added(row, input), '\n') && Delimited.NoEmpty(Added(row, input)) && Distinct(Added(row, input))
    ensures forall x :: x in Added(row, input) ==> x !in Keys(row)
  {
    var parts := Delimited.Split(input, '\n');
    var more, present := ModelNames.Normalize(parts), Elems(ModelNames.NonBlank(Keys(row)));
    Delimited.SplitIsFree(input, '\n');
    ModelNames.NormalizeIsFree(parts, '\n');
    ModelNames.NormalizeCleans(parts);
    ModelNames.DropIsClean(more, present);
    forall x | x in Added(row, input) ensures Delimited.Free(x, '\n') && x != "" && x !in Keys(row) {
      DropMembers(more, present, x);
      if x in Keys(row) { CleanIsPresent(Keys(row), x); }
    }
    assert forall i :: 0 <= i < |Added(row, input)| ==> Added(row, input)[i] in Added(row, input);
  }

  /** The key stands, trimmed, in one of the lines. */
  ghost predicate StandsIn(x: string, lines: seq<string>) {
    exists i :: 0 <= i < |lines| && ModelNames.IsTrimOf(x, lines[i])
  }

  /** Appending adds every line of the request that, trimmed, is neither blank nor one of the keys, and no other. */
  lemma AddedIff(row: Row, input: string, x: string)
    ensures x in Added(row, input) <==>
              x != "" && StandsIn(x, Delimited.Split(input, '\n')) && !StandsIn(x, Keys(row))
  {
    var lines, keys := Delimited.Split(input, '\n'), Keys(row);
    DropMembers(ModelNames.Normalize(lines), Elems(ModelNames.NonBlank(keys)), x);
    ModelNames.NormalizeMembers(lines, x);
    ModelNames.NonBlankAreTrims(keys, x);
  }

  lemma {:induction false} CleanIsPresent(xs: seq<string>, x: string)
    requires x in xs && x != "" && ModelNames.Trimmed(x)
    ensures x in ModelNames.NonBlank(xs)
  {
    if x == xs[|xs| - 1] {
      ModelNames.TrimSpaceTrims(x);
    } else {
      assert xs == xs[..|xs| - 1] + [xs[|xs| - 1]];
      CleanIsPresent(xs[..|xs| - 1], x);
    }
  }

  lemma StoredKeysIff(before: Row, keys: seq<string>, info: Info)
    requires keys != [] && Delimited.AllFree(keys, '\n')
    ensures Keys(Stored(before, Delimited.Join(keys, '\n'), info)) == keys <==>
              Delimited.EndsProper(keys) || (keys == [""] && Keys(before) == [""])
  {
    Delimited.RoundTripIff(keys, '\n');
    Delimited.JoinFacts(keys, '\n');
  }

  /** Appending keeps the old keys and puts the new ones after them, unless the column held blank lines only: then the
      blank key goes once a new one comes. */
  lemma AppendExtendsKeys(row: Row, input: string)
    requires row.key != ""
    ensures Keys(AppendKeys(row, input)) == Keys(row) + Added(row, input) <==> Keys(row) != [""] || Added(row, input) == []
  {
    var added := Added(row, input);
    AddedIsProper(row, input);
    KeysAreFree(row);
    Delimited.ReadListEnds(row.key, '\n');
    StoredKeysIff(row, Keys(row) + added, row.info);
    assert added != [] ==> (Keys(row) + added)[|Keys(row) + added| - 1] == added[|added| - 1];
    assert (Keys(row) + added)[0] == Keys(row)[0];
  }

  /** Without any key, appending stores the request as it is. */
  lemma AppendToNothing(row: Row, input: string)
    requires row.key == ""
    ensures AppendKeys(row, input).key == input && Keys(AppendKeys(row, input)) == Delimited.ReadList(input, '\n')
  {
  }

  /** The listing of the old keys then stays as it is, and the new ones are enabled. */
  lemma AppendExtendsListing(row: Row, input: string)
    requires row.key != "" && (Keys(row) != [""] || Added(row, input) == [])
    ensures var r := AppendKeys(row, input);
            && Keys(r) == Keys(row) + Added(row, input)
            && Listing(r)[..|Keys(row)|] == Listing(row)
            && (Sound(row) ==>
                 forall i :: |Keys(row)| <= i < |Keys(r)| ==> Listing(r)[i] == KeyStatus(Keys(r)[i], ENABLED, 0, ""))
  {
    AppendExtendsKeys(row, input);
    StoredListing(row, Delimited.Join(Keys(row) + Added(row, input), '\n'), row.info);
  }

  // ---------- creating ----------

  /** Creating a channel: lines that are not empty, trimmed. */
  function CleanKeys(lines: seq<string>): seq<string> {
    if lines == [] then []
    else
      var line := lines[|lines| - 1];
      CleanKeys(lines[..|lines| - 1]) + if line == "" then [] else [ModelNames.TrimSpace(line)]
  }

  function Created(input: string): Row {
    var keys := CleanKeys(Delimited.Split(input, '\n'));
    Row(Delimited.Join(keys, '\n'), |keys|, Info(map[], map[], map[]))
  }

  lemma {:induction false} CleanKeysAreFree(lines: seq<string>)
    requires Delimited.AllFree(lines, '\n')
    ensures Delimited.AllFree(CleanKeys(lines), '\n')
  {
    if lines != [] {
      CleanKeysAreFree(lines[..|lines| - 1]);
      ModelNames.TrimSpaceIsFree(lines[|lines| - 1], '\n');
    }
  }

  /** The keys come, trimmed, from the lines that are not empty, all of them and in their order; `at` says which line
      each comes from. */
  ghost predicate KeysOf(lines: seq<string>, keys: seq<string>, at: seq<int>) {
    && |at| == |keys| && (forall j, k :: 0 <= j < k < |at| ==> at[j] < at[k])
    && (forall i :: 0 <= i < |lines| ==> (i in at <==> lines[i] != ""))
    && (forall k :: 0 <= k < |at| ==> 0 <= at[k] < |lines| && ModelNames.IsTrimOf(keys[k], lines[at[k]]))
  }

  lemma {:induction false} CleanKeysOf(lines: seq<string>) returns (at: seq<int>)
    ensures KeysOf(lines, CleanKeys(lines), at)
  {
    at := [];
    if lines != [] {
      var init, line := lines[..|lines| - 1], lines[|lines| - 1];
      var before := CleanKeysOf(init);
      at := before + if line == "" then [] else [|lines| - 1];
      ModelNames.TrimSpaceIsTheTrim(line, ModelNames.TrimSpace(line));
      forall i | 0 <= i < |lines| ensures i in at <==> lines[i] != "" {
        if i < |init| { assert lines[i] == init[i]; }
      }
    }
  }

  /** The count a new channel starts with is that of its keys if and only if its first and last lines are not blank. */
  lemma CreatedIsSoundIff(input: string)
    ensures var keys := CleanKeys(Delimited.Split(input, '\n'));
            Sound(Created(input)) <==> keys == [] || Delimited.EndsProper(keys)
  {
    var lines := Delimited.Split(input, '\n');
    Delimited.SplitIsFree(input, '\n');
    CleanKeysAreFree(lines);
    if CleanKeys(lines) != [] { Delimited.RoundTripIff(CleanKeys(lines), '\n'); }
  }

  // ---------- turning off ----------

  /** Turning off touches only the first n positions, makes enabled ones manually disabled and keeps the others. */
  lemma {:induction false} TurnedOffFacts(status: map<int, int>, n: nat)
    ensures forall i | 0 <= i < n :: i in TurnedOff(status, n)
    ensures forall i | 0 <= i < n ::
              TurnedOff(status, n)[i] == if i in status && status[i] != ENABLED then status[i] else MANUALLY_DISABLED
    ensures forall i :: i < 0 || i >= n ==> (i in TurnedOff(status, n) <==> i in status)
    ensures forall i :: (i < 0 || i >= n) && i in status ==> TurnedOff(status, n)[i] == status[i]
  {
    if n > 0 { TurnedOffFacts(status, n - 1); }
  }

  // ---------- what the other actions do to the listing ----------

  /** Listings agree except at position i. */
  ghost predicate SameBut(a: seq<KeyStatus>, b: seq<KeyStatus>, i: int) {
    |a| == |b| && forall j :: 0 <= j < |a| && j != i ==> a[j] == b[j]
  }

  lemma SameKeyStored(row: Row, info: Info)
    ensures Keys(Stored(row, row.key, info)) == Keys(row)
    ensures Listing(Stored(row, row.key, info)) == ListingOf(Keys(row), info)
  {
    StoredListing(row, row.key, info);
  }

  /** Disabling a key changes its own entry only. */
  lemma DisableFacts(row: Row, i: int)
    requires 0 <= i < row.size && i < |Keys(row)|
    ensures var off := DisableKey(row, Some(i));
            && SameBut(Listing(off), Listing(row), i)
            && Listing(off)[i].key == Keys(row)[i] && Listing(off)[i].status == MANUALLY_DISABLED
  {
    SameKeyStored(row, row.info.(status := row.info.status[i := MANUALLY_DISABLED]));
  }

  /** Enabling a key clears its own entry only, and undoes disabling it. */
  lemma EnableFacts(row: Row, i: int)
    requires 0 <= i < row.size && i < |Keys(row)|
    ensures var on := EnableKey(row, Some(i));
            && SameBut(Listing(on), Listing(row), i) && Listing(on)[i] == KeyStatus(Keys(row)[i], ENABLED, 0, "")
            && on.info.times == row.info.times - {i} && on.info.reasons == row.info.reasons - {i}
    ensures EnableKey(DisableKey(row, Some(i)), Some(i)) == EnableKey(row, Some(i))
  {
    var n := |Keys(row)|;
    var off := row.info.(status := row.info.status[i := MANUALLY_DISABLED]);
    SameKeyStored(row, Info(row.info.status - {i}, row.info.times - {i}, row.info.reasons - {i}));
    var kept := (map j | j in off.status && j < n :: off.status[j]) - {i};
    assert (map j | j in kept && j < n :: kept[j]) ==
           (map j | j in row.info.status - {i} && j < n :: (row.info.status - {i})[j]);
  }

  /** A failing key gets its own entry, with time and reason; no other key's changes. */
  lemma AutoDisableFacts(row: Row, using: string, now: int, reason: string)
    requires Keys(row) != []
    ensures var r, i := AutoDisable(row, using, now, reason), PositionOf(Keys(row), using);
            && Keys(r) == Keys(row) && SameBut(Listing(r), Listing(row), i)
            && Listing(r)[i] == KeyStatus(Keys(row)[i], AUTO_DISABLED, now, reason)
  {
  }

  /** A key reported to work again is enabled; no other key's entry changes, and its old time and reason stay stored. */
  lemma ReportEnables(row: Row, using: string, now: int, reason: string)
    requires Keys(row) != []
    ensures var r, i := KeyReported(row, using, ENABLED, now, reason), PositionOf(Keys(row), using);
            && Keys(r) == Keys(row) && SameBut(Listing(r), Listing(row), i)
            && Listing(r)[i] == KeyStatus(Keys(row)[i], ENABLED, 0, "")
            && r.info.times == row.info.times && r.info.reasons == row.info.reasons
  {
  }

  lemma FailedAfter(row: Row, using: string, now: int, reason: string)
    requires Keys(row) != [] && Failed(row) == {}
    ensures Failed(AutoDisable(row, using, now, reason)) == {PositionOf(Keys(row), using)}
  {
    var r, i := AutoDisable(row, using, now, reason), PositionOf(Keys(row), using);
    assert Keys(r) == Keys(row);
    forall j | 0 <= j < |Keys(row)|
      ensures StatusOf(r.info, j) == AUTO_DISABLED <==> j == i
    {
      assert j !in Failed(row);
    }
  }

  /** Deleting the disabled keys after a single failure removes exactly the key that failed, if and only if the keys
      left begin and end with a non-blank one. */
  lemma FailedKeyIsDeleted(row: Row, using: string, now: int, reason: string)
    requires Keys(row) != [] && Failed(row) == {}
    ensures var i := PositionOf(Keys(row), using);
            Listing(DeleteDisabledKeys(AutoDisable(row, using, now, reason))) == Without(Listing(row), {i}) <==>
              Delimited.EndsProper(Without(Keys(row), {i}))
  {
    var r, i := AutoDisable(row, using, now, reason), PositionOf(Keys(row), using);
    FailedAfter(row, using, now, reason);
    AutoDisableFacts(row, using, now, reason);
    DeleteDisabledWorksIff(r);
    WithoutAgrees(Listing(r), Listing(row), {i});
  }

  lemma {:induction false} WithoutAgrees<T>(a: seq<T>, b: seq<T>, drop: set<int>)
    requires |a| == |b| && forall j :: 0 <= j < |a| && j !in drop ==> a[j] == b[j]
    ensures Without(a, drop) == Without(b, drop)
  {
    if a != [] { WithoutAgrees(a[..|a| - 1], b[..|b| - 1], drop); }
  }

  /** Enabling all gives a listing of enabled keys; disabling all leaves no counted key enabled and keeps what was
      disabled. */
  lemma AllFacts(row: Row, i: int)
    requires 0 <= i < |Keys(row)|
    ensures Keys(EnableAllKeys(row)) == Keys(row)
    ensures Listing(EnableAllKeys(row))[i] == KeyStatus(Keys(row)[i], ENABLED, 0, "")
    ensures EnableAllKeys(row).info == Info(map[], map[], map[])
    ensures Keys(DisableAllKeys(row)) == Keys(row)
    ensures Listing(row)[i].status == ENABLED && i < row.size ==>
              Listing(DisableAllKeys(row))[i].status == MANUALLY_DISABLED
    ensures Listing(row)[i].status != ENABLED ==> Listing(DisableAllKeys(row))[i] == Listing(row)[i]
  {
    var n := if row.size < 0 then 0 else row.size;
    TurnedOffFacts(row.info.status, n);
    SameKeyStored(row, Info(map[], map[], map[]));
    SameKeyStored(row, row.info.(status := TurnedOff(row.info.status, n)));
  }

  // ---------- the handler's loops ----------

  /** The stored channel row, over which a management request saves what it made of the copy it loaded. */
  class Channel {
    var row: Row

    constructor (row: Row)
      ensures this.row == row
    {
      this.row := row;
    }

    /** get_key_status: the listing and the statistics over all keys. */
    method List() returns (all: seq<KeyStatus>, enabled: nat, manual: nat, auto: nat)
      ensures all == Listing(row)
      ensures enabled == CountStatus(all, ENABLED) && manual == CountStatus(all, MANUALLY_DISABLED)
              && auto == CountStatus(all, AUTO_DISABLED)
    {
      var keys := Keys(row);
      all, enabled, manual, auto := [], 0, 0, 0;
      for i := 0 to |keys|
        invariant all == Listing(row)[..i]
        invariant enabled == CountStatus(all, ENABLED) && manual == CountStatus(all, MANUALLY_DISABLED)
                  && auto == CountStatus(all, AUTO_DISABLED)
      {
        var status := if i in row.info.status then row.info.status[i] else ENABLED;
        if status == ENABLED { enabled := enabled + 1; }
        else if status == MANUALLY_DISABLED { manual := manual + 1; }
        else if status == AUTO_DISABLED { auto := auto + 1; }
        var time, reason := 0, "";
        if status != ENABLED {
          if i in row.info.times { time := row.info.times[i]; }
          if i in row.info.reasons { reason := row.info.reasons[i]; }
        }
        CountStatusMore(all, KeyStatus(keys[i], status, time, reason));
        all := all + [KeyStatus(keys[i], status, time, reason)];
      }
    }

    method RemoveKey(copy: Row, index: Option<int>) returns (ok: bool)
      modifies this
      ensures row == Commit(old(row), Deletion(copy, index))
      ensures ok <==> Deletion(copy, index).Save?
    {
      if index.None? || index.value < 0 || index.value >= copy.size {
        return false;
      }
      var keys, info := Keys(copy), copy.info;
      var remaining, status, times, reasons := [], map[], map[], map[];
      var newIndex := 0;
      for i := 0 to |keys|
        invariant newIndex == |remaining|
        invariant Kept(remaining, Info(status, times, reasons)) == Retain(keys, info, {index.value}, true, i)
      {
        if i != index.value {
          remaining := remaining + [keys[i]];
          if i in info.status && info.status[i] != ENABLED { status := status[newIndex := info.status[i]]; }
          if i in info.times { times := times[newIndex := info.times[i]]; }
          if i in info.reasons { reasons := reasons[newIndex := info.reasons[i]]; }
          newIndex := newIndex + 1;
        }
      }
      if |remaining| == 0 {
        return false;
      }
      row := Stored(row, Delimited.Join(remaining, '\n'), Info(status, times, reasons));
      return true;
    }

    method RemoveDisabledKeys(copy: Row) returns (deleted: nat)
      modifies this
      ensures row == Commit(old(row), DisabledDeletion(copy))
      ensures deleted == 0 <==> Failed(copy) == {}
      ensures deleted + |Retain(Keys(copy), copy.info, Failed(copy), false, |Keys(copy)|).keys| == |Keys(copy)|
    {
      var keys, info := Keys(copy), copy.info;
      var remaining, status, times, reasons := [], map[], map[], map[];
      var newIndex := 0;
      deleted := 0;
      ghost var failed := Failed(copy);
      for i := 0 to |keys|
        invariant newIndex == |remaining|
        invariant Kept(remaining, Info(status, times, reasons)) == Retain(keys, info, failed, false, i)
        invariant deleted + |remaining| == i
        invariant deleted == 0 <==> forall j :: 0 <= j < i ==> j !in failed
      {
        var s := if i in info.status then info.status[i] else ENABLED;
        if s == AUTO_DISABLED {
          deleted := deleted + 1;
        } else {
          remaining := remaining + [keys[i]];
          if s != ENABLED {
            status := status[newIndex := s];
            if i in info.times { times := times[newIndex := info.times[i]]; }
            if i in info.reasons { reasons := reasons[newIndex := info.reasons[i]]; }
          }
          newIndex := newIndex + 1;
        }
      }
      if deleted == 0 {
        assert failed == {};
        return;
      }
      row := Stored(row, Delimited.Join(remaining, '\n'), Info(status, times, reasons));
    }

    method TurnAllOff(copy: Row) returns (disabled: nat)
      modifies this
      ensures row == Commit(old(row), AllDisabling(copy))
      ensures disabled == 0 <==> AllDisabling(copy).Refused?
    {
      var status := copy.info.status;
      disabled := 0;
      var size := if copy.size < 0 then 0 else copy.size;
      for i := 0 to size
        invariant row == old(row) && status == TurnedOff(copy.info.status, i)
        invariant disabled == 0 <==> status == copy.info.status
      {
        TurnedOffFacts(copy.info.status, i);
        if i !in status || status[i] == ENABLED {
          status := status[i := MANUALLY_DISABLED];
          disabled := disabled + 1;
          assert status[i] != StatusOf(copy.info, i);
        }
      }
      if disabled == 0 {
        return;
      }
      row := Stored(row, copy.key, copy.info.(status := status));
    }

    /** Append mode of UpdateChannel: what is new follows the keys there are; without any, the input is stored as is. */
    method AppendNewKeys(copy: Row, input: string)
      modifies this
      ensures row == Commit(old(row), Appending(copy, input))
    {
      if copy.key == "" {
        row := Stored(row, input, copy.info);
        return;
      }
      var existing := Keys(copy);
      var lines := Delimited.Split(input, '\n');
      var newKeys := TrimmedLines(lines);
      var present := TrimmedLines(existing);
      var seen := ToSet(present);
      var added := DropSeen(newKeys, seen);
      row := Stored(row, Delimited.Join(existing + added, '\n'), copy.info);
    }
  }

  /** The lines that are not blank, trimmed. */
  method TrimmedLines(lines: seq<string>) returns (keys: seq<string>)
    ensures keys == ModelNames.NonBlank(lines)
  {
    keys := [];
    for i := 0 to |lines|
      invariant keys == ModelNames.NonBlank(lines[..i])
    {
      assert lines[..i + 1][..i] == lines[..i];
      var key := ModelNames.TrimSpace(lines[i]);
      if key != "" {
        keys := keys + [key];
      }
    }
    assert lines[..|lines|] == lines;
  }

  /** Each key that has not been seen, once. */
  method DropSeen(keys: seq<string>, before: set<string>) returns (added: seq<string>)
    ensures added == Drop(Uniq(keys), before)
    ensures Distinct(added) && forall x :: x in added <==> x in keys && x !in before
  {
    added := [];
    var seen := before;
    for i := 0 to |keys|
      invariant added == Drop(Uniq(keys[..i]), before)
      invariant forall x :: x in seen <==> x in before || x in keys[..i]
    {
      assert keys[..i + 1][..i] == keys[..i] && keys[..i + 1] == keys[..i] + [keys[i]];
      UniqMembers(keys[..i], keys[i]);
      Snoc(Uniq(keys[..i]), keys[i], before);
      if keys[i] !in seen {
        seen := seen + {keys[i]};
        added := added + [keys[i]];
      }
    }
    assert keys[..|keys|] == keys;
    UniqIsDistinct(keys);
    DropIsDistinct(Uniq(keys), before);
    forall x ensures x in added <==> x in keys && x !in before {
      UniqMembers(keys, x);
      DropMembers(Uniq(keys), before, x);
    }
  }

  function CountStatus(l: seq<KeyStatus>, s: int): nat {
    if l == [] then 0 else CountStatus(l[..|l| - 1], s) + if l[|l| - 1].status == s then 1 else 0
  }

  lemma CountStatusMore(l: seq<KeyStatus>, k: KeyStatus)
    ensures forall s :: CountStatus(l + [k], s) == CountStatus(l, s) + if k.status == s then 1 else 0
  {
    assert (l + [k])[..|l|] == l;
  }

  function WithStatus(l: seq<KeyStatus>, s: int): set<int> {
    set i | 0 <= i < |l| && l[i].status == s
  }

  lemma WithStatusNext(l: seq<KeyStatus>, s: int)
    requires l != []
    ensures |WithStatus(l, s)| == |WithStatus(l[..|l| - 1], s)| + if l[|l| - 1].status == s then 1 else 0
  {
    var init, last := l[..|l| - 1], |l| - 1;
    assert WithStatus(l, s) == WithStatus(init, s) + if l[last].status == s then {last} else {};
  }

  /** The statistics are plain counts. */
  lemma {:induction false} CountStatusIs(l: seq<KeyStatus>, s: int)
    ensures CountStatus(l, s) == |WithStatus(l, s)|
  {
    if l != [] {
      CountStatusIs(l[..|l| - 1], s);
      WithStatusNext(l, s);
    }
  }

  // ---------- paging ----------

  function TotalPages(n: nat, pageSize: int): (t: int)
    requires pageSize > 0
    ensures t >= 1
  {
    var t := (n + pageSize - 1) / pageSize;
    if t == 0 then 1 else t
  }

  /** One page of the (filtered) listing.  Page numbers and sizes that are not positive fall back to 1 and 50, and a
      page past the end to the last. */
  function Page<T>(l: seq<T>, page: int, size: int): seq<T> {
    var pageSize := if size <= 0 then 50 else size;
    var wanted := if page <= 0 then 1 else page;
    var p := if wanted > TotalPages(|l|, pageSize) then TotalPages(|l|, pageSize) else wanted;
    var start := (p - 1) * pageSize;
    var end := if start + pageSize > |l| then |l| else start + pageSize;
    if 0 <= start < |l| then l[start..end] else []
  }

  /** A size that is not positive means 50, a page number that is not positive means the first page, and one past the end
      the last. */
  lemma PageFallsBack<T>(l: seq<T>, page: int, size: int)
    ensures size <= 0 ==> Page(l, page, size) == Page(l, page, 50)
    ensures page <= 0 ==> Page(l, page, size) == Page(l, 1, size)
    ensures size > 0 && page > TotalPages(|l|, size) ==> Page(l, page, size) == Page(l, TotalPages(|l|, size), size)
  {
  }

  /** The first k pages, one after the other. */
  function FirstPages<T>(l: seq<T>, k: nat, size: int): seq<T> {
    if k == 0 then [] else FirstPages(l, k - 1, size) + Page(l, k, size)
  }

  lemma PageStart(n: nat, size: int, p: int)
    requires size > 0 && 1 <= p <= TotalPages(n, size)
    ensures p == 1 || (p - 1) * size < n
    ensures TotalPages(n, size) * size >= n
  {
    var t := (n + size - 1) / size;
    assert n + size - 1 == t * size + (n + size - 1) % size;
    if p > 1 {
      assert (t - p) * size >= 0;
      assert (t - p) * size == t * size - p * size && (p - 1) * size == p * size - size;
    }
  }

  function AtMost(n: nat, x: nat): nat {
    if x > n then n else x
  }

  lemma PageIsSlice<T>(l: seq<T>, k: nat, size: int, start: nat)
    requires size > 0 && 1 <= k <= TotalPages(|l|, size) && start == (k - 1) * size && (start == 0 || start < |l|)
    ensures Page(l, k, size) == l[AtMost(|l|, start)..AtMost(|l|, start + size)]
  {
  }

  lemma PageExtends<T>(l: seq<T>, k: nat, size: int, start: nat)
    requires size > 0 && 1 <= k <= TotalPages(|l|, size) && start == (k - 1) * size && (start == 0 || start < |l|)
    ensures l[..AtMost(|l|, start)] + Page(l, k, size) == l[..AtMost(|l|, start + size)]
  {
    PageIsSlice(l, k, size, start);
  }

  lemma {:induction false} FirstPagesArePrefix<T>(l: seq<T>, k: nat, size: int, end: nat)
    requires size > 0 && k <= TotalPages(|l|, size) && end == k * size
    ensures FirstPages(l, k, size) == l[..AtMost(|l|, end)]
  {
    if k > 0 {
      var start := end - size;
      NextProduct(k, size);
      FirstPagesArePrefix(l, k - 1, size, start);
      PageStart(|l|, size, k);
      PageExtends(l, k, size, start);
    }
  }

  lemma NextProduct(k: nat, size: nat)
    requires k > 0
    ensures (k - 1) * size == k * size - size && k * size >= size
  {
  }

  /** Paging through a listing shows every entry once, in order. */
  lemma PagesCover<T>(l: seq<T>, size: int)
    requires size > 0
    ensures FirstPages(l, TotalPages(|l|, size), size) == l
  {
    FirstPagesArePrefix(l, TotalPages(|l|, size), size, TotalPages(|l|, size) * size);
    PageStart(|l|, size, 1);
  }
}
