/** The two database tables behind `DatabaseStorage` as maps keyed by id, the join that the
    appointment queries perform, the state changes the storage methods make, and the
    consistency invariant between slots and appointments that booking and cancellation keep. */
module Tables {
  import opened Options
  import opened Clock
  import opened Schema

  type Id = string

  /** The `available_slots` table. */
  type SlotTable = map<Id, AvailableSlot>

  /** A row of the `appointments` table. It refers to its slot by `slotId` and does not store
      the slot's time or service. */
  datatype AppointmentRow = AppointmentRow(
    id: Id,
    slotId: Id,
    nome: string,
    email: string,
    telefone: Option<string>,
    empresa: Option<string>,
    observacoes: Option<string>,
    codigoConfirmacao: string,
    status: string,
    criadoEm: Time)

  /** The `appointments` table. */
  type AppointmentTable = map<Id, AppointmentRow>

  /** Each row is stored under its own primary key. */
  predicate KeyedById(slots: SlotTable, appointments: AppointmentTable)
  {
    && (forall k :: k in slots ==> slots[k].id == k)
    && (forall k :: k in appointments ==> appointments[k].id == k)
  }

  /** One row of `appointments a JOIN available_slots s ON a.slot_id = s.id`. */
  function Join(row: AppointmentRow, slot: AvailableSlot): (a: Appointment)
    ensures a.id == row.id && a.dataHora == slot.dataHora && a.servico == slot.servico
  {
    Appointment(row.id, slot.dataHora, slot.servico, row.nome, row.email, row.telefone,
                row.empresa, row.observacoes, row.status, row.codigoConfirmacao, row.criadoEm)
  }

  /** The joined view of the appointments whose ids are in `ids`. An appointment whose slot
      no longer exists has no partner in the join and is not listed. */
  function JoinedOver(slots: SlotTable, appointments: AppointmentTable, ids: set<Id>): set<Appointment>
  {
    set k | k in ids && k in appointments && appointments[k].slotId in slots
      :: Join(appointments[k], slots[appointments[k].slotId])
  }

  /** Adding one appointment id to those joined adds its joined row when its slot exists. */
  lemma JoinedOverAdd(slots: SlotTable, appointments: AppointmentTable, ids: set<Id>, k: Id)
    requires forall j :: j in appointments ==> appointments[j].id == j
    requires k in appointments && k !in ids
    ensures appointments[k].slotId in slots ==>
      var a := Join(appointments[k], slots[appointments[k].slotId]);
      a !in JoinedOver(slots, appointments, ids) && JoinedOver(slots, appointments, ids + {k}) == JoinedOver(slots, appointments, ids) + {a}
    ensures appointments[k].slotId !in slots ==>
      JoinedOver(slots, appointments, ids + {k}) == JoinedOver(slots, appointments, ids)
  {
  }

  /** Every appointment the join yields. */
  function Joined(slots: SlotTable, appointments: AppointmentTable): set<Appointment>
  {
    JoinedOver(slots, appointments, appointments.Keys)
  }

  /** The slot/appointment mirror: every appointment holds an existing slot marked unavailable,
      and no two appointments hold the same slot. */
  predicate Mirror(slots: SlotTable, appointments: AppointmentTable)
  {
    && (forall k :: k in appointments ==>
          appointments[k].slotId in slots && !slots[appointments[k].slotId].disponivel)
    && (forall k, k' :: k in appointments && k' in appointments && k != k' ==>
          appointments[k].slotId != appointments[k'].slotId)
  }

  /** The ids `SELECT ... WHERE data_hora = $1 AND servico = $2 AND disponivel = true` finds. */
  function Bookable(slots: SlotTable, dataHora: Time, servico: string): (ids: set<Id>)
    ensures forall k :: k in ids <==>
      k in slots && slots[k].dataHora == dataHora && slots[k].servico == servico && slots[k].disponivel
  {
    set k | k in slots && slots[k].dataHora == dataHora && slots[k].servico == servico && slots[k].disponivel
  }

  /** The fields of a slot an update may set; `None` leaves the field as it is. */
  datatype SlotUpdate = SlotUpdate(dataHora: Option<Time>, servico: Option<string>, disponivel: Option<bool>)

  function ApplySlotUpdate(s: AvailableSlot, u: SlotUpdate): (r: AvailableSlot)
    ensures r.id == s.id && r.criadoEm == s.criadoEm
    ensures r.dataHora == (if u.dataHora.Some? then u.dataHora.value else s.dataHora)
    ensures r.servico == (if u.servico.Some? then u.servico.value else s.servico)
    ensures r.disponivel == (if u.disponivel.Some? then u.disponivel.value else s.disponivel)
  {
    var s1 := if u.dataHora.Some? then s.(dataHora := u.dataHora.value) else s;
    var s2 := if u.servico.Some? then s1.(servico := u.servico.value) else s1;
    if u.disponivel.Some? then s2.(disponivel := u.disponivel.value) else s2
  }

  /** Applying the same update twice has the effect of applying it once. */
  lemma SlotUpdateIdempotent(s: AvailableSlot, u: SlotUpdate)
    ensures ApplySlotUpdate(ApplySlotUpdate(s, u), u) == ApplySlotUpdate(s, u)
  {
  }

  /** `UPDATE available_slots SET disponivel = $1 WHERE id = $2`: no row changes when the id is unknown. */
  function SetAvailability(slots: SlotTable, id: Id, available: bool): (r: SlotTable)
    ensures r.Keys == slots.Keys
    ensures id in slots ==> r[id].disponivel == available
    ensures forall k :: k in slots ==>
      r[k] == (if k == id then slots[k].(disponivel := available) else slots[k])
  {
    if id in slots then slots[id := ApplySlotUpdate(slots[id], SlotUpdate(None, None, Some(available)))]
    else slots
  }

  /** The fields of an appointment an update may set: only the status and the notes. */
  datatype AppointmentUpdate = AppointmentUpdate(status: Option<string>, observacoes: Option<string>)

  function ApplyAppointmentUpdate(row: AppointmentRow, u: AppointmentUpdate): (r: AppointmentRow)
    ensures r == row.(status := r.status, observacoes := r.observacoes)
    ensures r.status == (if u.status.Some? then u.status.value else row.status)
    ensures r.observacoes == (if u.observacoes.Some? then u.observacoes else row.observacoes)
  {
    var r1 := if u.status.Some? then row.(status := u.status.value) else row;
    if u.observacoes.Some? then r1.(observacoes := u.observacoes) else r1
  }

  /** While the mirror holds, a slot that a booking may take is held by no appointment: a slot
      is never booked twice. */
  lemma BookableIsFree(slots: SlotTable, appointments: AppointmentTable, dataHora: Time, servico: string, sid: Id)
    requires Mirror(slots, appointments)
    requires sid in Bookable(slots, dataHora, servico)
    ensures forall k :: k in appointments ==> appointments[k].slotId != sid
  {
  }

  /** Booking a bookable slot (insert the appointment, mark the slot unavailable) keeps the mirror. */
  lemma BookingKeepsMirror(slots: SlotTable, appointments: AppointmentTable, row: AppointmentRow)
    requires Mirror(slots, appointments)
    requires row.slotId in slots && slots[row.slotId].disponivel
    requires row.id !in appointments
    ensures Mirror(SetAvailability(slots, row.slotId, false), appointments[row.id := row])
  {
    var slots', appointments' := SetAvailability(slots, row.slotId, false), appointments[row.id := row];
    forall k, k' | k in appointments' && k' in appointments' && k != k'
      ensures appointments'[k].slotId != appointments'[k'].slotId
    {
      if k == row.id {
        BookableIsFree(slots, appointments, slots[row.slotId].dataHora, slots[row.slotId].servico, row.slotId);
      } else if k' == row.id {
        BookableIsFree(slots, appointments, slots[row.slotId].dataHora, slots[row.slotId].servico, row.slotId);
      }
    }
  }

  /** Cancelling (delete the appointment, mark its slot available) keeps the mirror. */
  lemma CancellingKeepsMirror(slots: SlotTable, appointments: AppointmentTable, id: Id)
    requires Mirror(slots, appointments)
    requires id in appointments
    ensures Mirror(SetAvailability(slots, appointments[id].slotId, true), appointments - {id})
  {
    var sid := appointments[id].slotId;
    var slots' := SetAvailability(slots, sid, true);
    forall k | k in appointments - {id}
      ensures appointments[k].slotId in slots' && !slots'[appointments[k].slotId].disponivel
    {
      assert appointments[k].slotId != sid;
    }
  }

  /** Marking slots unavailable never breaks the mirror. */
  lemma BlockingKeepsMirror(slots: SlotTable, appointments: AppointmentTable, id: Id)
    requires Mirror(slots, appointments)
    ensures Mirror(SetAvailability(slots, id, false), appointments)
  {
  }

  /** The booking scenario: with one bookable slot for a time and service, a booking takes it and
      leaves nothing bookable there, so a second booking fails; cancelling that booking makes the
      same slot bookable again. */
  lemma BookCancelRebook(slots: SlotTable, appointments: AppointmentTable, row: AppointmentRow)
    requires Mirror(slots, appointments)
    requires row.slotId in slots && row.id !in appointments
    requires Bookable(slots, slots[row.slotId].dataHora, slots[row.slotId].servico) == {row.slotId}
    ensures var t, v := slots[row.slotId].dataHora, slots[row.slotId].servico;
      var booked := SetAvailability(slots, row.slotId, false);
      var withRow := appointments[row.id := row];
      && Mirror(booked, withRow)
      && Bookable(booked, t, v) == {}
      && Mirror(SetAvailability(booked, row.slotId, true), withRow - {row.id})
      && Bookable(SetAvailability(booked, row.slotId, true), t, v) == {row.slotId}
  {
    var t, v := slots[row.slotId].dataHora, slots[row.slotId].servico;
    var booked := SetAvailability(slots, row.slotId, false);
    var withRow := appointments[row.id := row];
    BookingKeepsMirror(slots, appointments, row);
    assert row.slotId in Bookable(slots, t, v);
    forall k | k in booked ensures k !in Bookable(booked, t, v) {
      if k != row.slotId {
        assert k !in Bookable(slots, t, v);
      }
    }
    CancellingKeepsMirror(booked, withRow, row.id);
    var freed := SetAvailability(booked, row.slotId, true);
    forall k | k in freed ensures k in Bookable(freed, t, v) <==> k == row.slotId {
      if k != row.slotId {
        assert k !in Bookable(slots, t, v);
      }
    }
  }
}
