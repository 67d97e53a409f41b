/** The shared record types and the request validators of `shared/schema.ts`: the two enums,
    the `AvailableSlot` and `Appointment` records, and the zod schemas `createSlotSchema` and
    `bookingFormSchema` as functions from a request body to a validated value or a rejection. */
module Schema {
  import opened Options
  import opened Clock

  /** `z.enum(["Carregamento", "Descarregamento"])`. */
  datatype Service = Carregamento | Descarregamento

  function ServiceName(s: Service): string
  {
    match s
    case Carregamento => "Carregamento"
    case Descarregamento => "Descarregamento"
  }

  /** The service enum accepts exactly its two names. */
  function ParseService(s: string): (r: Option<Service>)
    ensures r.Some? <==> s == "Carregamento" || s == "Descarregamento"
    ensures r.Some? ==> ServiceName(r.value) == s
  {
    if s == ServiceName(Carregamento) then Some(Carregamento)
    else if s == ServiceName(Descarregamento) then Some(Descarregamento)
    else None
  }

  /** `z.enum(["confirmado", "cancelado", "pendente"])`. */
  datatype Status = Confirmado | Cancelado | Pendente

  function StatusName(s: Status): string
  {
    match s
    case Confirmado => "confirmado"
    case Cancelado => "cancelado"
    case Pendente => "pendente"
  }

  /** The status enum accepts exactly its three names. */
  function ParseStatus(s: string): (r: Option<Status>)
    ensures r.Some? <==> s == "confirmado" || s == "cancelado" || s == "pendente"
    ensures r.Some? ==> StatusName(r.value) == s
  {
    if s == StatusName(Confirmado) then Some(Confirmado)
    else if s == StatusName(Cancelado) then Some(Cancelado)
    else if s == StatusName(Pendente) then Some(Pendente)
    else None
  }

  /** `.default("confirmado")`: an absent status reads as "confirmado"; a present one must be
      one of the three names. `None` is a validation error. */
  function StatusWithDefault(raw: Option<string>): (r: Option<Status>)
    ensures raw.None? ==> r == Some(Confirmado)
    ensures raw.Some? ==> (r.Some? <==> raw.value in {"confirmado", "cancelado", "pendente"})
    ensures raw.Some? && r.Some? ==> StatusName(r.value) == raw.value
  {
    match raw
    case None => Some(Confirmado)
    case Some(s) => ParseStatus(s)
  }

  /** A select filter on a listed field: the empty choice and "all" pass every value, any
      other choice passes the values equal to it. */
  predicate ChoiceMatches(choice: string, value: string)
  {
    choice == "" || choice == "all" || value == choice
  }

  /** `AvailableSlot`, as the server hands it out. Service and availability are what the
      database holds: updates written through `PUT /api/slots/:id` are not validated, so the
      service is kept as text. */
  datatype AvailableSlot = AvailableSlot(
    id: string,
    dataHora: Time,
    servico: string,
    disponivel: bool,
    criadoEm: Time)

  /** `Appointment`, as the server hands it out: `dataHora` and `servico` come from its slot. */
  datatype Appointment = Appointment(
    id: string,
    dataHora: Time,
    servico: string,
    nomeCliente: string,
    emailCliente: string,
    telefoneCliente: Option<string>,
    empresaCliente: Option<string>,
    observacoes: Option<string>,
    status: string,
    codigoConfirmacao: string,
    criadoEm: Time)

  /** `availableSlotSchema` on a stored slot: its service is one of the enum's names. */
  predicate ConformsToSlotSchema(s: AvailableSlot)
  {
    ParseService(s.servico).Some?
  }

  /** `appointmentSchema` on a listed appointment: enum service and status, and an email the
      email check accepts. The check itself (zod's regular expression) is the parameter
      `isEmail`. */
  predicate ConformsToAppointmentSchema(a: Appointment, isEmail: string -> bool)
  {
    ParseService(a.servico).Some? && isEmail(a.emailCliente) && ParseStatus(a.status).Some?
  }

  /** The fields of a `POST /api/slots` body that `createSlotSchema` reads; `None` is an absent
      field. Other fields (`id`, `criadoEm`) are stripped by the schema. */
  datatype SlotBody = SlotBody(dataHora: Option<string>, servico: Option<string>, disponivel: Option<bool>)

  /** `CreateSlotData`: a validated slot request. It has no `id` and no `criadoEm`; the server
      generates them. */
  datatype CreateSlotData = CreateSlotData(dataHora: string, servico: Service, disponivel: bool)

  /** `createSlotSchema.parse`: `dataHora` must be a non-empty string, `servico` must be present
      and one of the two names, and `disponivel` defaults to true. `None` is a `ZodError`. */
  function ParseCreateSlot(body: SlotBody): (r: Option<CreateSlotData>)
    ensures r.Some? <==>
      && body.dataHora.Some? && |body.dataHora.value| >= 1
      && body.servico.Some? && body.servico.value in {"Carregamento", "Descarregamento"}
    ensures r.Some? ==>
      && r.value.dataHora == body.dataHora.value
      && ServiceName(r.value.servico) == body.servico.value
      && r.value.disponivel == (body.disponivel != Some(false))
  {
    if body.dataHora.None? || body.dataHora.value == [] then None
    else if body.servico.None? then None
    else
      match ParseService(body.servico.value)
      case None => None
      case Some(service) =>
        var available := if body.disponivel.Some? then body.disponivel.value else true;
        Some(CreateSlotData(body.dataHora.value, service, available))
  }

  /** The fields of a `POST /api/appointments` body that `bookingFormSchema` reads. */
  datatype BookingBody = BookingBody(
    dataHora: Option<string>,
    servico: Option<string>,
    nomeCliente: Option<string>,
    emailCliente: Option<string>,
    telefoneCliente: Option<string>,
    empresaCliente: Option<string>,
    observacoes: Option<string>,
    status: Option<string>)

  /** `BookingFormData`: a validated booking. It has no `id`, `codigoConfirmacao` or `criadoEm`;
      the server generates them. */
  datatype BookingFormData = BookingFormData(
    dataHora: string,
    servico: Service,
    nomeCliente: string,
    emailCliente: string,
    telefoneCliente: Option<string>,
    empresaCliente: Option<string>,
    observacoes: Option<string>,
    status: Status)

  /** A string's JavaScript `length`: its UTF-16 code units, two for each character above U+FFFF. */
  function Utf16Length(s: string): (n: nat)
    ensures |s| <= n <= 2 * |s|
  {
    if s == [] then 0
    else (if s[0] as int > 0xFFFF then 2 else 1) + Utf16Length(s[1..])
  }

  /** The name minimum of two code units: two characters, or one character above U+FFFF. */
  lemma {:induction false} NameMinimum(name: string)
    ensures Utf16Length(name) >= 2 <==> |name| >= 2 || (|name| == 1 && name[0] as int > 0xFFFF)
  {
    if |name| == 1 {
      assert name[1..] == [];
    }
  }

  /** `bookingFormSchema.parse`: a time string and an enum service are required, the name must
      have a `length` of at least two, the email must pass the email check, phone, company and
      notes are optional, and the status defaults to "confirmado". `None` is a `ZodError`. */
  function ParseBookingForm(body: BookingBody, isEmail: string -> bool): (r: Option<BookingFormData>)
    ensures r.Some? <==>
      && body.dataHora.Some?
      && body.servico.Some? && body.servico.value in {"Carregamento", "Descarregamento"}
      && body.nomeCliente.Some? && Utf16Length(body.nomeCliente.value) >= 2
      && body.emailCliente.Some? && isEmail(body.emailCliente.value)
      && (body.status.None? || body.status.value in {"confirmado", "cancelado", "pendente"})
    ensures r.Some? ==>
      && r.value.dataHora == body.dataHora.value
      && ServiceName(r.value.servico) == body.servico.value
      && r.value.nomeCliente == body.nomeCliente.value
      && r.value.emailCliente == body.emailCliente.value
      && r.value.telefoneCliente == body.telefoneCliente
      && r.value.empresaCliente == body.empresaCliente
      && r.value.observacoes == body.observacoes
      && StatusName(r.value.status) == (if body.status.Some? then body.status.value else "confirmado")
  {
    if body.dataHora.None? || body.servico.None? || body.nomeCliente.None? || body.emailCliente.None? then None
    else
      var service := ParseService(body.servico.value);
      var status := StatusWithDefault(body.status);
      if service.None? || status.None? then None
      else if Utf16Length(body.nomeCliente.value) < 2 || !isEmail(body.emailCliente.value) then None
      else Some(BookingFormData(
        body.dataHora.value, service.value, body.nomeCliente.value, body.emailCliente.value,
        body.telefoneCliente, body.empresaCliente, body.observacoes, status.value))
  }
}
