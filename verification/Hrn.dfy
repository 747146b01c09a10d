/** HERE resource names: the tokenizer, the parser that advances it, the printer, and equality. */
module Hrn {

  import opened Options

  const SEPARATOR: char := ':'

  // ---- tokens of a string; None stands for "past the end" ----

  predicate ColonFree(s: string) {
    SEPARATOR !in s
  }

  /** Up to the first separator. */
  function Token(s: string): (t: string)
    ensures ColonFree(t)
  {
    if s == "" || s[0] == SEPARATOR then "" else [s[0]] + Token(s[1..])
  }

  /** After the first separator, if there is one. */
  function Rest(s: string): Option<string> {
    if s == "" then None else if s[0] == SEPARATOR then Some(s[1..]) else Rest(s[1..])
  }

  lemma {:induction false} TokenAndRest(s: string)
    ensures Rest(s) == if |Token(s)| < |s| then Some(s[|Token(s)| + 1..]) else None
    ensures |Token(s)| <= |s| && s[..|Token(s)|] == Token(s)
    ensures |Token(s)| < |s| ==> s[|Token(s)|] == SEPARATOR
  {
    if s != "" && s[0] != SEPARATOR {
      TokenAndRest(s[1..]);
    }
  }

  lemma {:induction false} TokenOfJoin(a: string, b: string)
    requires ColonFree(a)
    ensures Token(a + [SEPARATOR] + b) == a && Rest(a + [SEPARATOR] + b) == Some(b)
  {
    var s := a + [SEPARATOR] + b;
    if a == "" {
      assert s[1..] == b;
    } else {
      assert s[1..] == a[1..] + [SEPARATOR] + b;
      TokenOfJoin(a[1..], b);
    }
  }

  lemma {:induction false} TokenOfLast(a: string)
    requires ColonFree(a)
    ensures Token(a) == a && Rest(a) == None
  {
    if a != "" {
      TokenOfLast(a[1..]);
    }
  }

  /** What a field read from the tokenizer gets; it stays empty when nothing is left. */
  function Field(left: Option<string>): (t: string)
    ensures ColonFree(t)
  {
    if left.Some? then Token(left.value) else ""
  }

  function Advance(left: Option<string>): Option<string> {
    if left.Some? then Rest(left.value) else None
  }

  function TailField(left: Option<string>): string {
    if left.Some? then left.value else ""
  }

  class Tokenizer {
    const NPOS: nat := 0xffff_ffff_ffff_ffff

    const str: string
    const sep: char
    var pos: nat

    /** What is still to be read. */
    function Left(): Option<string>
      reads this
    {
      if pos <= |str| then Some(str[pos..]) else None
    }

    ghost predicate Valid()
      reads this
    {
      |str| < NPOS && (pos <= |str| || pos == NPOS) && sep == SEPARATOR
    }

    constructor (input: string)
      requires |input| < 0xffff_ffff_ffff_ffff
      ensures Valid() && str == input && Left() == Some(input)
    {
      str, pos, sep := input, 0, SEPARATOR;
    }

    /** An empty input has no tokens at all, although its position is not past the end. */
    method HasNext() returns (b: bool)
      requires Valid()
      ensures b <==> str != "" && Left().Some?
    {
      b := str != "" && pos != NPOS;
    }

    method FindSeparator() returns (found: nat)
      requires Valid() && pos <= |str|
      ensures found == NPOS || pos <= found < |str|
      ensures found != NPOS ==> str[found] == sep && Token(str[pos..]) == str[pos..found] && Rest(str[pos..]) == Some(str[found + 1..])
      ensures found == NPOS ==> Token(str[pos..]) == str[pos..] && Rest(str[pos..]) == None
    {
      found := pos;
      while found < |str| && str[found] != sep
        invariant pos <= found <= |str|
        invariant ColonFree(str[pos..found])
      {
        found := found + 1;
      }
      if found < |str| {
        assert str[pos..] == str[pos..found] + [SEPARATOR] + str[found + 1..];
        TokenOfJoin(str[pos..found], str[found + 1..]);
      } else {
        assert str[pos..found] == str[pos..];
        TokenOfLast(str[pos..]);
        found := NPOS;
      }
    }

    method Next() returns (token: string)
      requires Valid()
      modifies this
      ensures Valid()
      ensures token == Field(old(Left())) && Left() == Advance(old(Left()))
    {
      if pos == NPOS {
        return "";
      }
      var begin := pos;
      var separatorPosition := FindSeparator();
      if separatorPosition == NPOS {
        pos := NPOS;
        return str[begin..];
      }
      pos := separatorPosition + 1;
      token := str[begin..separatorPosition];
    }

    /** Everything that is left. */
    method Tail() returns (tail: string)
      requires Valid()
      modifies this
      ensures Valid()
      ensures tail == TailField(old(Left())) && Left() == None
    {
      if pos == NPOS {
        return "";
      }
      tail := str[pos..];
      pos := NPOS;
    }
  }

  // ---- resource names ----

  datatype ServiceType = Unknown | Data | Schema | Pipeline

  datatype HRN = HRN(
    partition: string, service: ServiceType, region: string, account: string,
    catalogId: string, layerId: string,
    groupId: string, schemaName: string, version: string,
    pipelineId: string)
  {
    function ToString(): string {
      var genericPart := ":" + region + ":" + account + ":";
      "hrn:" + partition + ":" +
      match service
      case Data => "data" + genericPart + catalogId + (if layerId != "" then ":" + layerId else "")
      case Schema => "schema" + genericPart + groupId + ":" + schemaName + ":" + version
      case Pipeline => "pipeline" + genericPart + pipelineId
      case Unknown => genericPart
    }

    function ToCatalogHRNString(): string {
      if service != Data then ""
      else "hrn:" + partition + ":" + "data" + ":" + region + ":" + account + ":" + catalogId
    }

    /** operator==: fields of other services are ignored, and an unknown service equals nothing. */
    predicate EqualTo(rhs: HRN) {
      && partition == rhs.partition && service == rhs.service
      && region == rhs.region && account == rhs.account
      && match service
         case Data => catalogId == rhs.catalogId && layerId == rhs.layerId
         case Schema => groupId == rhs.groupId && schemaName == rhs.schemaName && version == rhs.version
         case Pipeline => pipelineId == rhs.pipelineId
         case Unknown => false
    }

    /** The fields that are followed by a separator when printed. */
    predicate InnerFieldsColonFree() {
      && ColonFree(partition) && ColonFree(region) && ColonFree(account)
      && (service == Data ==> ColonFree(catalogId))
      && (service == Schema ==> ColonFree(groupId) && ColonFree(schemaName))
    }
  }

  const EMPTY: HRN := HRN("", Unknown, "", "", "", "", "", "", "", "")

  function ServiceOf(s: string): ServiceType {
    if s == "data" then Data else if s == "schema" then Schema else if s == "pipeline" then Pipeline else Unknown
  }

  /** What the parser makes of the part after "hrn:". */
  function ParsedBody(left: Option<string>): HRN {
    var h := EMPTY.(partition := Field(left));
    var left1 := Advance(left);
    var service := ServiceOf(Field(left1));
    if service == Unknown then h else ParsedService(h.(service := service), Advance(left1))
  }

  function ParsedService(h: HRN, left: Option<string>): HRN {
    var h1 := h.(region := Field(left), account := Field(Advance(left)));
    var left2 := Advance(Advance(left));
    match h.service
    case Data => h1.(catalogId := Field(left2), layerId := TailField(Advance(left2)))
    case Schema =>
      h1.(groupId := Field(left2), schemaName := Field(Advance(left2)), version := TailField(Advance(Advance(left2))))
    case Pipeline => h1.(pipelineId := TailField(left2))
    case Unknown => h1
  }

  function Parsed(input: string): HRN {
    if Token(input) != "hrn" then EMPTY else ParsedBody(Rest(input))
  }

  /** The parsing constructor. */
  method FromString(input: string) returns (h: HRN)
    requires |input| < 0xffff_ffff_ffff_ffff
    ensures h == Parsed(input)
  {
    h := EMPTY;
    var tokenizer := new Tokenizer(input);
    var more := tokenizer.HasNext();
    if !more {
      return;
    }
    var protocol := tokenizer.Next();
    if protocol != "hrn" {
      return;
    }
    more := tokenizer.HasNext();
    if more {
      var partition := tokenizer.Next();
      h := h.(partition := partition);
    }
    more := tokenizer.HasNext();
    if more {
      var serviceStr := tokenizer.Next();
      if serviceStr == "data" {
        h := h.(service := Data);
      } else if serviceStr == "schema" {
        h := h.(service := Schema);
      } else if serviceStr == "pipeline" {
        h := h.(service := Pipeline);
      } else {
        return;
      }
    }
    h := ReadService(tokenizer, h);
  }

  /** The part of the constructor after the service is known. */
  method ReadService(tokenizer: Tokenizer, h0: HRN) returns (h: HRN)
    requires tokenizer.Valid() && tokenizer.str != ""
    requires h0.region == "" && h0.account == "" && h0.catalogId == "" && h0.layerId == ""
    requires h0.groupId == "" && h0.schemaName == "" && h0.version == "" && h0.pipelineId == ""
    modifies tokenizer
    ensures h == ParsedService(h0, old(tokenizer.Left()))
  {
    var region := NextIfAny(tokenizer);
    var account := NextIfAny(tokenizer);
    h := h0.(region := region, account := account);
    match h.service
    case Data =>
      var catalogId := NextIfAny(tokenizer);
      var layerId := TailIfAny(tokenizer);
      h := h.(catalogId := catalogId, layerId := layerId);
    case Schema =>
      var groupId := NextIfAny(tokenizer);
      var schemaName := NextIfAny(tokenizer);
      var version := TailIfAny(tokenizer);
      h := h.(groupId := groupId, schemaName := schemaName, version := version);
    case Pipeline =>
      var pipelineId := TailIfAny(tokenizer);
      h := h.(pipelineId := pipelineId);
    case Unknown =>
  }

  /** A field keeps its empty value unless there is a next token. */
  method NextIfAny(tokenizer: Tokenizer) returns (field: string)
    requires tokenizer.Valid() && tokenizer.str != ""
    modifies tokenizer
    ensures tokenizer.Valid()
    ensures field == Field(old(tokenizer.Left())) && tokenizer.Left() == Advance(old(tokenizer.Left()))
  {
    field := "";
    var more := tokenizer.HasNext();
    if more {
      field := tokenizer.Next();
    }
  }

  method TailIfAny(tokenizer: Tokenizer) returns (field: string)
    requires tokenizer.Valid() && tokenizer.str != ""
    modifies tokenizer
    ensures tokenizer.Valid()
    ensures field == TailField(old(tokenizer.Left()))
  {
    field := "";
    var more := tokenizer.HasNext();
    if more {
      field := tokenizer.Tail();
    }
  }

  // ---- round trips ----

  /** What a printed name looks like after "hrn:", field by field. */
  function Body(h: HRN): string {
    h.partition + ":" + (
      match h.service
      case Data => "data" + ":" + (h.region + ":" + (h.account + ":" + DataResource(h)))
      case Schema => "schema" + ":" + (h.region + ":" + (h.account + ":" + (h.groupId + ":" + (h.schemaName + ":" + h.version))))
      case Pipeline => "pipeline" + ":" + (h.region + ":" + (h.account + ":" + h.pipelineId))
      case Unknown => ":" + (h.region + ":" + (h.account + ":"))
    )
  }

  lemma ToStringIsBody(h: HRN)
    ensures h.ToString() == "hrn" + ":" + Body(h)
  {
    var generic := ":" + h.region + ":" + h.account + ":";
    match h.service
    case Data =>
      assert "data" + generic + h.catalogId + (if h.layerId != "" then ":" + h.layerId else "")
          == "data" + generic + DataResource(h);
      Regroup(h, "data", DataResource(h));
    case Schema =>
      var resource := h.groupId + ":" + (h.schemaName + ":" + h.version);
      assert "schema" + generic + h.groupId + ":" + h.schemaName + ":" + h.version == "schema" + generic + resource;
      Regroup(h, "schema", resource);
    case Pipeline =>
      Regroup(h, "pipeline", h.pipelineId);
    case Unknown =>
      Regroup(h, "", "");
      assert "" + generic + "" == generic;
      assert h.account + ":" + "" == h.account + ":";
      assert "" + ":" + (h.region + ":" + (h.account + ":" + "")) == ":" + (h.region + ":" + (h.account + ":"));
  }

  lemma Regroup(h: HRN, tag: string, resource: string)
    ensures "hrn:" + h.partition + ":" + (tag + (":" + h.region + ":" + h.account + ":") + resource)
         == "hrn" + ":" + (h.partition + ":" + (tag + ":" + (h.region + ":" + (h.account + ":" + resource))))
  {
    var tail := h.region + ":" + (h.account + ":" + resource);
    assert (":" + h.region + ":" + h.account + ":") + resource == ":" + tail;
    assert tag + (":" + h.region + ":" + h.account + ":") + resource == tag + ":" + tail;
  }

  /** The fields of services other than its own are empty. */
  predicate OnlyOwnFields(h: HRN) {
    && (h.service != Data ==> h.catalogId == "" && h.layerId == "")
    && (h.service != Schema ==> h.groupId == "" && h.schemaName == "" && h.version == "")
    && (h.service != Pipeline ==> h.pipelineId == "")
    && (h.service == Unknown ==> h.region == "" && h.account == "")
  }

  /** `h` with the fields of other services cleared: all that printing shows of it. */
  function OwnFields(h: HRN): HRN {
    var e := EMPTY.(partition := h.partition, service := h.service, region := h.region, account := h.account);
    match h.service
    case Data => e.(catalogId := h.catalogId, layerId := h.layerId)
    case Schema => e.(groupId := h.groupId, schemaName := h.schemaName, version := h.version)
    case Pipeline => e.(pipelineId := h.pipelineId)
    case Unknown => EMPTY.(partition := h.partition)
  }

  /** Parsing a printed name recovers every field printing shows, if the inner fields have no separators. */
  lemma ParsedPrint(h: HRN)
    requires h.InnerFieldsColonFree()
    ensures Parsed(h.ToString()) == OwnFields(h)
  {
    ToStringIsBody(h);
    TokenOfJoin("hrn", Body(h));
    ParsedBodyOfPrint(h);
  }

  lemma ParsedBodyOfPrint(h: HRN)
    requires h.InnerFieldsColonFree()
    ensures ParsedBody(Some(Body(h))) == OwnFields(h)
  {
    match h.service
    case Data =>
      DataPart(h);
      ServicePart(h, "data", DataResource(h));
    case Schema =>
      SchemaPart(h);
      ServicePart(h, "schema", h.groupId + ":" + (h.schemaName + ":" + h.version));
    case Pipeline =>
      ServicePart(h, "pipeline", h.pipelineId);
    case Unknown =>
      var body := h.region + ":" + (h.account + ":");
      assert "" + ":" + body == ":" + body;
      TokenOfJoin(h.partition, ":" + body);
      TokenOfJoin("", body);
  }

  function DataResource(h: HRN): string {
    h.catalogId + (if h.layerId != "" then ":" + h.layerId else "")
  }

  lemma DataPart(h: HRN)
    requires ColonFree(h.catalogId)
    ensures Field(Some(DataResource(h))) == h.catalogId
    ensures TailField(Advance(Some(DataResource(h)))) == h.layerId
  {
    if h.layerId != "" {
      assert DataResource(h) == h.catalogId + [SEPARATOR] + h.layerId;
      TokenOfJoin(h.catalogId, h.layerId);
    } else {
      assert DataResource(h) == h.catalogId;
      TokenOfLast(h.catalogId);
    }
  }

  lemma SchemaPart(h: HRN)
    requires ColonFree(h.groupId) && ColonFree(h.schemaName)
    ensures var left := Some(h.groupId + ":" + (h.schemaName + ":" + h.version));
      && Field(left) == h.groupId && Field(Advance(left)) == h.schemaName
      && TailField(Advance(Advance(left))) == h.version
  {
    TokenOfJoin(h.groupId, h.schemaName + ":" + h.version);
    TokenOfJoin(h.schemaName, h.version);
  }

  /** The four leading fields of a name with a known service. */
  lemma ServicePart(h: HRN, tag: string, resource: string)
    requires h.InnerFieldsColonFree() && ColonFree(tag) && ServiceOf(tag) == h.service != Unknown
    ensures var left := Some(h.region + ":" + (h.account + ":" + resource));
      ParsedBody(Some(h.partition + ":" + (tag + ":" + left.value)))
        == ParsedService(EMPTY.(partition := h.partition, service := h.service), left)
    ensures var left := Some(h.region + ":" + (h.account + ":" + resource));
      && Field(left) == h.region && Field(Advance(left)) == h.account && Advance(Advance(left)) == Some(resource)
  {
    var body := h.region + ":" + (h.account + ":" + resource);
    TokenOfJoin(h.partition, tag + ":" + body);
    TokenOfJoin(tag, body);
    GenericPart(h, resource);
  }

  lemma GenericPart(h: HRN, resource: string)
    requires ColonFree(h.region) && ColonFree(h.account)
    ensures var left := Some(h.region + ":" + (h.account + ":" + resource));
      && Field(left) == h.region && Field(Advance(left)) == h.account && Advance(Advance(left)) == Some(resource)
  {
    TokenOfJoin(h.region, h.account + ":" + resource);
    TokenOfJoin(h.account, resource);
  }

  lemma ParsedIsClean(s: string)
    ensures Parsed(s).InnerFieldsColonFree() && OnlyOwnFields(Parsed(s))
  {
  }

  /** Parsing what was printed of a parsed name gives that name again, for every string whatever: missing fields,
      empty fields, unknown services and strings without the "hrn" prefix included. */
  lemma ParsePrintParse(s: string)
    ensures Parsed(Parsed(s).ToString()) == Parsed(s)
  {
    ParsedIsClean(s);
    ParsedPrint(Parsed(s));
  }

  /** A name equals what its own text parses to exactly when its service is known and its inner fields are free of
      separators. The last field may contain any. */
  lemma PrintParseIff(h: HRN)
    ensures Parsed(h.ToString()).EqualTo(h) <==> h.service != Unknown && h.InnerFieldsColonFree()
  {
    ParsedIsClean(h.ToString());
    if h.InnerFieldsColonFree() {
      ParsedPrint(h);
    }
  }

  /** The catalog string forgets the layer and nothing else. */
  lemma CatalogStringParses(h: HRN)
    requires h.service == Data && h.InnerFieldsColonFree()
    ensures Parsed(h.ToCatalogHRNString()) == OwnFields(h).(layerId := "")
  {
    var c := OwnFields(h).(layerId := "");
    assert c.ToString() == h.ToCatalogHRNString();
    ParsedPrint(c);
  }
}
