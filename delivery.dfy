/**
 * The delivery recorder of `SmsService`: `send_message` writes a message record,
 * hands the message to the Play Mobile gateway (`play_mobile_send`) and writes
 * the gateway's answer back into the same record.  The HTTP call is the
 * parameter `gateway`; the environment variables are `Config`.
 */
module Delivery {
  import opened Wrappers
  import opened Errors

  /** `template_type_enum`: the core names only `OTHER`; any other member is carried by its name. */
  datatype TemplateType = Other | Kind(name: string)

  /** `SmsDto`: one message to one recipient. */
  datatype SmsDto = SmsDto(recipient: string, message_text: string, adminId: int, sms_type: Option<TemplateType>)

  /** A falsy `sms_type` is replaced by `OTHER`; a given one is kept. */
  function WithDefaultType(dto: SmsDto): (d: SmsDto)
    ensures d.sms_type.Some?
    ensures dto.sms_type.Some? ==> d == dto
    ensures dto.sms_type.None? ==> d == dto.(sms_type := Some(Other))
  {
    if dto.sms_type.None? then dto.(sms_type := Some(Other)) else dto
  }

  /** `SMS_BROKER_API` and `SMS_BROKER_TOKEN`; `None` is an unset variable. */
  datatype Config = Config(brokerApi: Option<string>, brokerToken: Option<string>)

  /** `!process.env.X` is false: the variable is set and not empty. */
  predicate IsSet(v: Option<string>) {
    v.Some? && v.value != ""
  }

  predicate Configured(c: Config) {
    IsSet(c.brokerApi) && IsSet(c.brokerToken)
  }

  const MissingConfigMessage := "SMS_BROKER_API or SMS_BROKER_TOKEN is not defined in environment variables"
  const RecordNotUpdatedMessage := "SMS topilmadi yoki yangilanmadi."

  /** The sender id every message goes out under. */
  const Originator := "3700"

  /** Message record ids; the store hands them out (the database generates a UUID). */
  type Id = nat

  /** The JSON body posted to the gateway: `messages.recipient`, `messages["message-id"]`, `sms.originator`, `sms.content.text`. */
  datatype Envelope = Envelope(recipient: string, messageId: Id, originator: string, text: string)

  /** `{ status, data }` of a gateway answer. */
  datatype GatewayResponse = GatewayResponse(status: int, data: string)

  /** The outcome of the POST: an answer, or a thrown error that may carry one in `e.response`. */
  datatype GatewayOutcome = Answered(response: GatewayResponse) | Failed(carried: Option<GatewayResponse>)

  const FallbackResponse := GatewayResponse(500, "Internal Server Error")

  /** `play_mobile_send`: throws when the gateway is not configured, and otherwise never fails. */
  function PlayMobileSend(env: Envelope, config: Config, gateway: Envelope -> GatewayOutcome): (r: Result<GatewayResponse, Thrown>)
    ensures r.Err? <==> !Configured(config)
    ensures r.Err? ==> r.error == Plain(MissingConfigMessage)
    ensures r.Ok? && gateway(env).Answered? ==> r.value == gateway(env).response
    ensures r.Ok? && gateway(env) == Failed(None) ==> r.value == FallbackResponse
    ensures r.Ok? && gateway(env).Failed? && gateway(env).carried.Some? ==> r.value == gateway(env).carried.value
  {
    if !Configured(config) then Err(Plain(MissingConfigMessage))
    else
      match gateway(env)
      case Answered(resp) => Ok(resp)
      case Failed(e) => Ok(e.GetOr(FallbackResponse))
  }

  /** A row of the `sms` table; the gateway fields are empty until the answer is written back. */
  datatype SmsRecord = SmsRecord(
    adminId: int, recipient: string, message_text: string,
    play_mobile_status: Option<int>, play_mobile_data: Option<string>)

  /** The row `create` inserts for a message. The table has no column for `sms_type`. */
  function Pending(dto: SmsDto): (rec: SmsRecord)
    ensures rec.play_mobile_status.None? && rec.play_mobile_data.None?
  {
    SmsRecord(dto.adminId, dto.recipient, dto.message_text, None, None)
  }

  /** The row after `update(id, { play_mobile_data, play_mobile_status })`. */
  function WithAnswer(rec: SmsRecord, resp: GatewayResponse): (r: SmsRecord)
    ensures r.play_mobile_status == Some(resp.status) && r.play_mobile_data == Some(resp.data)
    ensures r.(play_mobile_status := rec.play_mobile_status, play_mobile_data := rec.play_mobile_data) == rec
  {
    rec.(play_mobile_status := Some(resp.status), play_mobile_data := Some(resp.data))
  }

  /** The `sms` table. */
  class SmsRepo {
    var records: map<Id, SmsRecord>
    var nextId: Id

    /** Every stored id was handed out before `nextId`. */
    ghost predicate Valid()
      reads this
    {
      forall id :: id in records ==> id < nextId
    }

    constructor()
      ensures Valid() && records == map[] && nextId == 0
    {
      records := map[];
      nextId := 0;
    }

    /** `create(data)`: inserts a new row under a fresh id. */
    method Create(dto: SmsDto) returns (id: Id)
      requires Valid()
      modifies this
      ensures Valid()
      ensures id == old(nextId) && id !in old(records)
      ensures records == old(records)[id := Pending(dto)]
      ensures nextId == old(nextId) + 1
    {
      id := nextId;
      records := records[id := Pending(dto)];
      nextId := nextId + 1;
    }

    /** `update(id, data)`: writes the gateway fields of an existing row; `None` when there is no such row. */
    method Update(id: Id, resp: GatewayResponse) returns (r: Option<SmsRecord>)
      requires Valid()
      modifies this
      ensures Valid() && nextId == old(nextId)
      ensures id in old(records) ==> records == old(records)[id := WithAnswer(old(records)[id], resp)] && r == Some(records[id])
      ensures id !in old(records) ==> records == old(records) && r == None
    {
      if id in records {
        var rec := WithAnswer(records[id], resp);
        records := records[id := rec];
        r := Some(rec);
      } else {
        r := None;
      }
    }
  }

  /** What `send_message(dto)` leaves in the store and returns, for the id the store hands out. */
  ghost predicate SendEffect(
    before: map<Id, SmsRecord>, after: map<Id, SmsRecord>, id: Id, dto: SmsDto,
    config: Config, gateway: Envelope -> GatewayOutcome, r: Result<SmsRecord, Thrown>)
  {
    var sent := PlayMobileSend(Envelope(dto.recipient, id, Originator, dto.message_text), config, gateway);
    if sent.Err? then
      after == before[id := Pending(dto)] && r == Err(sent.error)
    else
      after == before[id := WithAnswer(Pending(dto), sent.value)] && r == Ok(after[id])
  }

  /**
   * `send_message(data)`: defaults the type, creates the record, posts it to the
   * gateway under the record's id and writes the answer into that same record.
   * `sent` is `data` after the type default has been written into it.
   */
  method SendMessage(repo: SmsRepo, dto: SmsDto, config: Config, gateway: Envelope -> GatewayOutcome)
    returns (r: Result<SmsRecord, Thrown>, sent: SmsDto)
    requires repo.Valid()
    modifies repo
    ensures repo.Valid() && repo.nextId == old(repo.nextId) + 1
    ensures old(repo.nextId) !in old(repo.records)
    ensures SendEffect(old(repo.records), repo.records, old(repo.nextId), dto, config, gateway, r)
    ensures sent == WithDefaultType(dto)
  {
    sent := WithDefaultType(dto);
    var id := repo.Create(sent);
    var response := PlayMobileSend(Envelope(dto.recipient, id, Originator, dto.message_text), config, gateway);
    if response.Err? {
      return Err(response.error), sent;
    }
    var updated := repo.Update(id, response.value);
    if updated.None? {
      assert false;
    }
    r := Ok(updated.value);
  }

  // ---- properties -------------------------------------------------------------------

  /** Once the gateway is configured, a message is always recorded with an answer: a failed call is recorded as well. */
  lemma {:induction false} ConfiguredSendSucceeds(
    before: map<Id, SmsRecord>, after: map<Id, SmsRecord>, id: Id, dto: SmsDto,
    config: Config, gateway: Envelope -> GatewayOutcome, r: Result<SmsRecord, Thrown>)
    requires Configured(config)
    requires SendEffect(before, after, id, dto, config, gateway, r)
    ensures r.Ok? && after.Keys == before.Keys + {id}
    ensures after[id].recipient == dto.recipient && after[id].message_text == dto.message_text
    ensures after[id].play_mobile_status.Some? && after[id].play_mobile_data.Some?
    ensures gateway(Envelope(dto.recipient, id, Originator, dto.message_text)) == Failed(None) ==>
      after[id].play_mobile_status == Some(500) && after[id].play_mobile_data == Some("Internal Server Error")
  {
  }

  /** Without configuration the record is still created, and stays unanswered. */
  lemma {:induction false} UnconfiguredSendLeavesPending(
    before: map<Id, SmsRecord>, after: map<Id, SmsRecord>, id: Id, dto: SmsDto,
    config: Config, gateway: Envelope -> GatewayOutcome, r: Result<SmsRecord, Thrown>)
    requires !Configured(config)
    requires SendEffect(before, after, id, dto, config, gateway, r)
    ensures r == Err(Plain(MissingConfigMessage))
    ensures after == before[id := Pending(dto)] && after[id].play_mobile_status.None?
  {
  }

  /** A send touches only its own record. */
  lemma {:induction false} SendTouchesOneRecord(
    before: map<Id, SmsRecord>, after: map<Id, SmsRecord>, id: Id, dto: SmsDto,
    config: Config, gateway: Envelope -> GatewayOutcome, r: Result<SmsRecord, Thrown>)
    requires SendEffect(before, after, id, dto, config, gateway, r)
    ensures id in after && forall other :: other in before && other != id ==> other in after && after[other] == before[other]
  {
  }
}
