/** `CreateTaskDto`: the body `POST /tasks` accepts, as the global validation
    pipe (`whitelist`, `forbidNonWhitelisted`) and the DTO decorators check it. */
module CreateTaskDto {
  import opened Results
  import opened Dates
  import opened Validators

  datatype CreateTaskDto = CreateTaskDto(
    title: string,
    description: Field<string>,
    isCompleted: Field<bool>,
    plannedDate: Field<CalendarDate>,
    categoryId: Field<string>)

  /** The only properties the DTO declares; any other property is rejected. */
  const Whitelist: set<string> := {"title", "description", "isCompleted", "plannedDate", "categoryId"}

  /** The body passes validation. */
  predicate ValidCreateTaskBody(body: Body)
    ensures ValidCreateTaskBody(body) ==>
              && "id" !in body && "userId" !in body && "isArchived" !in body && "completionDate" !in body
              && "createdAt" !in body && "updatedAt" !in body
  {
    && body.Keys <= Whitelist
    && "title" in body && body["title"].JString? && body["title"].text != ""
    && (Omitted(body, "description") || body["description"].JString?)
    && (Omitted(body, "isCompleted") || body["isCompleted"].JBool?)
    && (Omitted(body, "plannedDate") || (body["plannedDate"].JString? && IsDateString(body["plannedDate"].text)))
    && (Omitted(body, "categoryId") || (body["categoryId"].JString? && IsUuidV4(body["categoryId"].text)))
  }

  /** What a validated DTO can hold: a non-empty title, a spellable planned
      date and a version-4 UUID as category. */
  predicate ValidCreateTaskDto(dto: CreateTaskDto) {
    && dto.title != ""
    && (dto.plannedDate.Given? ==> Spellable(dto.plannedDate.value))
    && (dto.categoryId.Given? ==> IsUuidV4(dto.categoryId.value))
  }

  /** The validation pipe: the typed DTO of a valid body, None (a 400
      response) for any other body. */
  function DecodeCreateTask(body: Body): (r: Option<CreateTaskDto>)
    ensures r.Some? <==> ValidCreateTaskBody(body)
    ensures r.Some? ==> ValidCreateTaskDto(r.value)
  {
    if ValidCreateTaskBody(body) then
      Some(CreateTaskDto(body["title"].text, TextProperty(body, "description"),
                         FlagProperty(body, "isCompleted"), DateProperty(body, "plannedDate"),
                         TextProperty(body, "categoryId")))
    else None
  }

  /** How `dto` sends the property `key`. */
  function TaskProperty(dto: CreateTaskDto, key: string): Field<Json>
    requires ValidCreateTaskDto(dto)
  {
    if key == "title" then Given(JString(dto.title))
    else if key == "description" then TextJson(dto.description)
    else if key == "isCompleted" then FlagJson(dto.isCompleted)
    else if key == "plannedDate" then DateJson(dto.plannedDate)
    else if key == "categoryId" then TextJson(dto.categoryId)
    else Absent
  }

  /** The body a client sends for `dto`. */
  function EncodeCreateTask(dto: CreateTaskDto): Body
    requires ValidCreateTaskDto(dto)
  {
    map key | key in Whitelist && !TaskProperty(dto, key).Absent? :: Sent(TaskProperty(dto, key))
  }

  /** Every valid DTO is what its own body decodes to. */
  lemma DecodeEncodedTask(dto: CreateTaskDto)
    requires ValidCreateTaskDto(dto)
    ensures DecodeCreateTask(EncodeCreateTask(dto)) == Some(dto)
  {
    var body := EncodeCreateTask(dto);
    assert body.Keys <= Whitelist;
    assert "title" in body && body["title"] == JString(dto.title);
    if dto.plannedDate.Given? {
      ParseRenderedDate(dto.plannedDate.value);
      assert body["plannedDate"] == JString(RenderIsoDate(dto.plannedDate.value));
    }
    assert ValidCreateTaskBody(body);
    assert TextProperty(body, "description") == dto.description;
    assert FlagProperty(body, "isCompleted") == dto.isCompleted;
    assert DateProperty(body, "plannedDate") == dto.plannedDate;
    assert TextProperty(body, "categoryId") == dto.categoryId;
  }

  /** A valid body is determined by the DTO it decodes to. */
  lemma EncodeDecodedTask(body: Body)
    requires ValidCreateTaskBody(body)
    ensures EncodeCreateTask(DecodeCreateTask(body).value) == body
  {
    var dto := DecodeCreateTask(body).value;
    if dto.plannedDate.Given? {
      RenderParsedDate(body["plannedDate"].text);
    }
    var e := EncodeCreateTask(dto);
    forall key | key in Whitelist
      ensures (key in e <==> key in body) && (key in body ==> e[key] == body[key])
    {
      assert TaskProperty(dto, key).Absent? <==> key !in body;
    }
    assert e.Keys == body.Keys;
  }
}
