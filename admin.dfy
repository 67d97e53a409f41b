/** The list logic of the admin page (`client/src/pages/admin.tsx`): the appointment table's
    search and status filter, the selection of slots to block, and the list of slots the
    block dialog offers. */
module Admin {
  import opened Lists
  import opened Schema
  import opened Storage

  /** `toLowerCase` on one character, for the ASCII capitals. */
  function LowerChar(c: char): char
  {
    if 'A' <= c <= 'Z' then (c as int + 32) as char else c
  }

  /** `s.toLowerCase()`, character by character. */
  function Lower(s: string): (r: string)
    ensures |r| == |s|
    ensures forall i :: 0 <= i < |s| ==> r[i] == LowerChar(s[i])
  {
    seq(|s|, i requires 0 <= i < |s| => LowerChar(s[i]))
  }

  /** Lower-casing twice is lower-casing once. */
  lemma LowerIdempotent(s: string)
    ensures Lower(Lower(s)) == Lower(s)
  {
    var l := Lower(s);
    forall i | 0 <= i < |s| ensures Lower(l)[i] == l[i] {
      assert LowerChar(LowerChar(s[i])) == LowerChar(s[i]);
    }
  }

  /** `s.includes(t)`: `t` occurs in `s` as a contiguous piece. */
  predicate Includes(s: string, t: string)
    decreases |s|
  {
    if |t| > |s| then false
    else if s[..|t|] == t then true
    else Includes(s[1..], t)
  }

  /** `t` occurs in `s` starting at position `i`. */
  predicate OccursAt(s: string, t: string, i: int)
  {
    0 <= i && i + |t| <= |s| && s[i..i + |t|] == t
  }

  /** `Includes` holds exactly when `t` occurs somewhere in `s`. */
  lemma {:induction false} IncludesAt(s: string, t: string)
    ensures Includes(s, t) <==> exists i :: OccursAt(s, t, i)
    decreases |s|
  {
    if |t| <= |s| && s[..|t|] != t {
      IncludesAt(s[1..], t);
      if Includes(s, t) {
        var i :| OccursAt(s[1..], t, i);
        assert OccursAt(s, t, i + 1);
      } else {
        forall i | 0 <= i ensures !OccursAt(s, t, i) {
          if i > 0 {
            assert !OccursAt(s[1..], t, i - 1);
          }
        }
      }
    } else if |t| <= |s| {
      assert OccursAt(s, t, 0);
    }
  }

  /** The search box: the lower-cased term occurs in the lower-cased name, email or
      confirmation code. */
  predicate MatchesSearch(a: Appointment, term: string)
  {
    var needle := Lower(term);
    Includes(Lower(a.nomeCliente), needle)
      || Includes(Lower(a.emailCliente), needle)
      || Includes(Lower(a.codigoConfirmacao), needle)
  }

  /** The search ignores the case of the term, and an empty term matches every appointment. */
  lemma SearchIgnoresCase(a: Appointment, term: string)
    ensures MatchesSearch(a, Lower(term)) == MatchesSearch(a, term)
    ensures MatchesSearch(a, "")
  {
    LowerIdempotent(term);
    assert Lower("") == "";
    IncludesAt(Lower(a.nomeCliente), "");
    assert OccursAt(Lower(a.nomeCliente), "", 0);
  }

  /** Whether the table shows `a` for the given search term and status choice. */
  function Shown(term: string, status: string): Appointment -> bool
  {
    (a: Appointment) => MatchesSearch(a, term) && ChoiceMatches(status, a.status)
  }

  /** `filteredAppointments`: the appointments the admin table shows. */
  function FilteredAppointments(appointments: seq<Appointment>, term: string, status: string): (r: seq<Appointment>)
    ensures forall a :: a in r <==> a in appointments && MatchesSearch(a, term) && ChoiceMatches(status, a.status)
  {
    Filter(appointments, Shown(term, status))
  }

  /** The table keeps the order of the appointments it was given, and with an empty search
      and no status choice ("" or "all") it shows all of them. */
  lemma FilteredKeepsOrder(appointments: seq<Appointment>, term: string, status: string)
    ensures IsSubsequence(FilteredAppointments(appointments, term, status), appointments)
    ensures term == "" && (status == "" || status == "all") ==>
      FilteredAppointments(appointments, term, status) == appointments
  {
    FilterIsSubsequence(appointments, Shown(term, status));
    if term == "" && (status == "" || status == "all") {
      forall a | a in appointments ensures Shown(term, status)(a) {
        SearchIgnoresCase(a, term);
      }
      FilterAllOrNone(appointments, Shown(term, status));
    }
  }

  function Other(id: string): string -> bool
  {
    (x: string) => x != id
  }

  /** The selection updater: clicking a slot drops its id (every copy of it) from the
      selection when it is selected, and appends it otherwise. */
  function Toggle(selected: seq<string>, id: string): (r: seq<string>)
    ensures id in r <==> id !in selected
    ensures forall x :: x != id ==> (x in r <==> x in selected)
    ensures id in selected ==> IsSubsequence(r, selected) && |r| < |selected|
    ensures id !in selected ==> |r| == |selected| + 1 && r[..|selected|] == selected && r[|selected|] == id
  {
    if id in selected then
      FilterIsSubsequence(selected, Other(id));
      FilterDrops(selected, Other(id), id);
      Filter(selected, Other(id))
    else
      selected + [id]
  }

  /** Clicking a slot that is not selected twice gives back the selection; clicking a selected
      one twice moves it to the end (once). */
  lemma ToggleTwice(selected: seq<string>, id: string)
    ensures id !in selected ==> Toggle(Toggle(selected, id), id) == selected
    ensures id in selected ==> Toggle(Toggle(selected, id), id) == Filter(selected, Other(id)) + [id]
  {
    FilterAllOrNone(selected, Other(id));
    if id !in selected {
      FilterAppend(selected, [id], Other(id));
      assert Filter([id], Other(id)) == [];
    }
  }

  function IsOpen(s: AvailableSlot): bool
  {
    s.disponivel
  }

  /** The slots the block dialog offers: the available ones, sorted by time. */
  function BlockDialogSlots(slots: seq<AvailableSlot>): (r: seq<AvailableSlot>)
    ensures SortedBy(r, SlotTime)
    ensures multiset(r) == multiset(Filter(slots, IsOpen))
    ensures forall s :: s in r <==> s in slots && s.disponivel
  {
    var r := SortBy(Filter(slots, IsOpen), SlotTime);
    assert forall s :: s in r <==> s in multiset(r);
    assert forall s :: s in Filter(slots, IsOpen) <==> s in multiset(Filter(slots, IsOpen));
    r
  }

  /** `GET /api/slots` already lists the slots by time, so on that listing the dialog's sort
      keeps the server's order: the dialog shows the available slots in the order listed. */
  lemma DialogKeepsServerOrder(slots: seq<AvailableSlot>)
    requires SortedBy(slots, SlotTime)
    ensures BlockDialogSlots(slots) == Filter(slots, IsOpen)
  {
    FilterSorted(slots, IsOpen, SlotTime);
    SortSorted(Filter(slots, IsOpen), SlotTime);
  }
}
