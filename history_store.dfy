/** The history of saved bills: newest first, at most `MaxHistorySize` of them. The id and
    the timestamp of a saved bill are parameters. */
module HistoryStore {
  import opened Common
  import opened Bill

  /** `MAX_HISTORY_SIZE`. */
  const MaxHistorySize: nat := 50

  /** The list after saving `saved`: it goes first and the oldest bills beyond the limit are
      dropped (`[savedBill, ...bills].slice(0, MAX_HISTORY_SIZE)`). */
  function SaveTo(bills: seq<SavedBill>, saved: SavedBill): (r: seq<SavedBill>)
    ensures |r| == Min(|bills| + 1, MaxHistorySize)
    ensures r[0] == saved
    ensures forall i :: 1 <= i < |r| ==> r[i] == bills[i - 1]
  {
    Take([saved] + bills, MaxHistorySize)
  }

  /** The filter of `deleteBill`. */
  function OtherBill(id: string): SavedBill -> bool
  {
    (b: SavedBill) => b.id != id
  }

  /** `deleteBill(id)`: the bills without that id, the others in their order. */
  function DeleteFrom(bills: seq<SavedBill>, id: string): (r: seq<SavedBill>)
    ensures KeptInOrder(r, bills, OtherBill(id))
    ensures forall i :: 0 <= i < |r| ==> r[i].id != id && r[i] in bills
    ensures forall i :: 0 <= i < |bills| && bills[i].id != id ==> bills[i] in r
  {
    FilterKeptInOrder(bills, OtherBill(id));
    Filter(bills, OtherBill(id))
  }

  /** `getBillById(id)`: the first bill with that id, or none. */
  function FindBill(bills: seq<SavedBill>, id: string): (r: Option<SavedBill>)
    ensures r.None? <==> forall i :: 0 <= i < |bills| ==> bills[i].id != id
    ensures r.Some? ==> exists i :: 0 <= i < |bills| && bills[i] == r.value
                                   && r.value.id == id && forall j :: 0 <= j < i ==> bills[j].id != id
  {
    if |bills| == 0 then None
    else if bills[0].id == id then Some(bills[0])
    else
      var r := FindBill(bills[1..], id);
      assert forall i :: 1 <= i < |bills| ==> bills[i] == bills[1..][i - 1];
      r
  }

  /** `s` backwards. */
  function Reversed<T>(s: seq<T>): (r: seq<T>)
    ensures |r| == |s|
    ensures forall i :: 0 <= i < |s| ==> r[i] == s[|s| - 1 - i]
  {
    if |s| == 0 then [] else [s[|s| - 1]] + Reversed(s[..|s| - 1])
  }

  /** Saving the bills `saved` one after the other. */
  function SaveAll(bills: seq<SavedBill>, saved: seq<SavedBill>): seq<SavedBill>
  {
    if |saved| == 0 then bills else SaveTo(SaveAll(bills, saved[..|saved| - 1]), saved[|saved| - 1])
  }

  // ---- Properties ---------------------------------------------------------------------------

  /** A saved bill is found by its id straight away. */
  lemma FindAfterSave(bills: seq<SavedBill>, saved: SavedBill)
    ensures FindBill(SaveTo(bills, saved), saved.id) == Some(saved)
  {
  }

  /** After `deleteBill(id)` no bill has that id. */
  lemma FindAfterDelete(bills: seq<SavedBill>, id: string)
    ensures FindBill(DeleteFrom(bills, id), id) == None
  {
  }

  /** Deleting an id no bill has changes nothing. */
  lemma DeleteUnknownId(bills: seq<SavedBill>, id: string)
    requires FindBill(bills, id) == None
    ensures DeleteFrom(bills, id) == bills
  {
    FilterKeepsAll(bills, OtherBill(id));
  }

  /** The list after a run of saves is the newest `MaxHistorySize` bills, newest first,
      followed by as many of the older list as still fit. */
  lemma {:induction false} SaveAllKeepsNewest(bills: seq<SavedBill>, saved: seq<SavedBill>)
    requires |bills| <= MaxHistorySize
    ensures SaveAll(bills, saved) == Take(Reversed(saved) + bills, MaxHistorySize)
  {
    if |saved| > 0 {
      var n := |saved| - 1;
      SaveAllKeepsNewest(bills, saved[..n]);
      var older := Reversed(saved[..n]) + bills;
      assert Reversed(saved) + bills == [saved[n]] + older;
      var r := SaveAll(bills, saved);
      var t := Take([saved[n]] + older, MaxHistorySize);
      assert |r| == |t|;
      forall i | 0 <= i < |r|
        ensures r[i] == t[i]
      {
        if i > 0 {
          assert r[i] == Take(older, MaxHistorySize)[i - 1];
        }
      }
    }
  }

  /** The list never holds more than `MaxHistorySize` bills. */
  lemma HistoryBounded(bills: seq<SavedBill>, saved: seq<SavedBill>)
    requires |bills| <= MaxHistorySize
    ensures |SaveAll(bills, saved)| <= MaxHistorySize
  {
    SaveAllKeepsNewest(bills, saved);
  }

  /** Fifty-one saves into an empty history keep saves 51 down to 2, newest first; the
      first save is gone when the saved bills are distinct. */
  lemma FiftyOneSaves(saved: seq<SavedBill>)
    requires |saved| == 51
    ensures var r := SaveAll([], saved);
      |r| == 50 && r[0] == saved[50] && r[49] == saved[1]
      && forall i :: 0 <= i < 50 ==> r[i] == saved[50 - i]
    ensures (forall i, j :: 0 <= i < j < 51 ==> saved[i] != saved[j]) ==> saved[0] !in SaveAll([], saved)
  {
    SaveAllKeepsNewest([], saved);
    assert Reversed(saved) + [] == Reversed(saved);
  }

  /** The history store. */
  class History {
    var bills: seq<SavedBill>

    constructor ()
      ensures bills == []
    {
      bills := [];
    }

    /** `saveBill(bill, label)`: the bill's fields, with the id, timestamp and label given. */
    method SaveBill(data: BillData, totalInCents: int, labelText: Option<string>, id: string, timestamp: int)
      modifies this
      ensures bills == SaveTo(old(bills), SavedBill(id, timestamp, labelText, totalInCents, data))
    {
      var savedBill := SavedBill(id, timestamp, labelText, totalInCents, data);
      bills := Take([savedBill] + bills, MaxHistorySize);
    }

    method DeleteBill(id: string)
      modifies this
      ensures bills == DeleteFrom(old(bills), id)
    {
      bills := Filter(bills, OtherBill(id));
    }

    method ClearHistory()
      modifies this
      ensures bills == []
    {
      bills := [];
    }

    /** `getBillById(id)`: none when no saved bill has the id, else the first that has it. */
    function GetBillById(id: string): (r: Option<SavedBill>)
      reads this
      ensures r.None? <==> forall i :: 0 <= i < |bills| ==> bills[i].id != id
      ensures r.Some? ==> exists i :: 0 <= i < |bills| && bills[i] == r.value
                                     && r.value.id == id && forall j :: 0 <= j < i ==> bills[j].id != id
    {
      FindBill(bills, id)
    }
  }
}
