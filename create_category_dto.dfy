/** `CreateCategoryDto`: the body `POST /categories` accepts, as the global
    validation pipe and the DTO decorators check it. */
module CreateCategoryDto {
  import opened Results
  import opened Validators

  datatype CreateCategoryDto = CreateCategoryDto(
    name: string,
    description: Field<string>,
    color: Field<string>)

  const MaxNameLength: nat := 50
  const MaxDescriptionLength: nat := 200

  const Whitelist: set<string> := {"name", "description", "color"}

  /** The body passes validation: a non-empty name of at most 50 characters,
      an optional description of at most 200, an optional color of any form. */
  predicate ValidCreateCategoryBody(body: Body)
    ensures ValidCreateCategoryBody(body) ==> "id" !in body && "userId" !in body && "createdAt" !in body
  {
    && body.Keys <= Whitelist
    && "name" in body && body["name"].JString?
    && body["name"].text != "" && |body["name"].text| <= MaxNameLength
    && (Omitted(body, "description")
        || (body["description"].JString? && |body["description"].text| <= MaxDescriptionLength))
    && (Omitted(body, "color") || body["color"].JString?)
  }

  predicate ValidCreateCategoryDto(dto: CreateCategoryDto) {
    && dto.name != "" && |dto.name| <= MaxNameLength
    && (dto.description.Given? ==> |dto.description.value| <= MaxDescriptionLength)
  }

  /** The validation pipe: the typed DTO of a valid body, None (a 400
      response) for any other body. */
  function DecodeCreateCategory(body: Body): (r: Option<CreateCategoryDto>)
    ensures r.Some? <==> ValidCreateCategoryBody(body)
    ensures r.Some? ==> ValidCreateCategoryDto(r.value)
  {
    if ValidCreateCategoryBody(body) then
      Some(CreateCategoryDto(body["name"].text, TextProperty(body, "description"),
                             TextProperty(body, "color")))
    else None
  }

  /** How `dto` sends the property `key`. */
  function CategoryProperty(dto: CreateCategoryDto, key: string): Field<Json> {
    if key == "name" then Given(JString(dto.name))
    else if key == "description" then TextJson(dto.description)
    else if key == "color" then TextJson(dto.color)
    else Absent
  }

  /** The body a client sends for `dto`. */
  function EncodeCreateCategory(dto: CreateCategoryDto): Body {
    map key | key in Whitelist && !CategoryProperty(dto, key).Absent? :: Sent(CategoryProperty(dto, key))
  }

  /** Every valid DTO is what its own body decodes to. */
  lemma DecodeEncodedCategory(dto: CreateCategoryDto)
    requires ValidCreateCategoryDto(dto)
    ensures DecodeCreateCategory(EncodeCreateCategory(dto)) == Some(dto)
  {
    assert ValidCreateCategoryBody(EncodeCreateCategory(dto));
  }

  /** A valid body is determined by the DTO it decodes to. */
  lemma EncodeDecodedCategory(body: Body)
    requires ValidCreateCategoryBody(body)
    ensures EncodeCreateCategory(DecodeCreateCategory(body).value) == body
  {
    var dto := DecodeCreateCategory(body).value;
    var e := EncodeCreateCategory(dto);
    forall key | key in Whitelist
      ensures (key in e <==> key in body) && (key in body ==> e[key] == body[key])
    {
      assert CategoryProperty(dto, key).Absent? <==> key !in body;
    }
    assert e.Keys == body.Keys;
  }
}
