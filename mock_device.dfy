/**
 * The development stand-in for the terminal (src/mock/mockDevice.js): an in-memory user store
 * behind the record and door routes. The record route reads three fields out of the XML body with
 * the regexes `<tag>([^<]+)</tag>`; a field that does not match is stored as `?`.
 */
module MockDevice {
  import opened Wrappers
  import opened JsBuiltins
  import opened XmlText
  import H = Hikvision

  /** What the store keeps per user. */
  datatype DeviceUser = DeviceUser(employeeNo: string, name: string, endTime: string)

  /** A reply: HTTP status and XML document. */
  datatype XmlReply = XmlReply(status: int, body: string)

  /** `xmlOk()`: the success status document. */
  const XmlOk := "<?xml version=\"1.0\" encoding=\"UTF-8\"?>\n<ResponseStatus>\n  <requestURL>/ISAPI/AccessControl/...</requestURL>\n  <statusCode>1</statusCode>\n  <statusString>OK</statusString>\n  \n</ResponseStatus>"

  /** `xmlErr(code, msg)`: an error status document. */
  function XmlErr(code: nat, msg: string): string {
    "<?xml version=\"1.0\" encoding=\"UTF-8\"?>\n<ResponseStatus>\n  <statusCode>" + NatToString(code)
      + "</statusCode>\n  <statusString>" + msg + "</statusString>\n</ResponseStatus>"
  }

  /** `match ? match[1] : "?"` for the pattern `<tag>([^<]+)</tag>`. */
  function Captured(body: string, tag: string): (r: string)
    ensures MatchedText(body, tag, 1).Some? ==> r == MatchedText(body, tag, 1).value
    ensures MatchedText(body, tag, 1).None? ==> r == "?"
    ensures r != []
  {
    MatchedText(body, tag, 1).GetOr("?")
  }

  /** The record the record route stores for a body; it is also stored under its own `employeeNo`. */
  function StoredUser(body: string): (u: DeviceUser)
    ensures u.employeeNo == Captured(body, "employeeNo")
    ensures u.name == Captured(body, "name") && u.endTime == Captured(body, "endTime")
  {
    DeviceUser(Captured(body, "employeeNo"), Captured(body, "name"), Captured(body, "endTime"))
  }

  class MockTerminal {
    /** The `users` Map, keyed by employee number. */
    var users: map<string, DeviceUser>

    constructor ()
      ensures users == map[]
    {
      users := map[];
    }

    /** POST `UserInfo/Record`: an upsert under the captured employee number; always OK. */
    method PostRecord(body: string) returns (reply: XmlReply)
      modifies this
      ensures users == old(users)[StoredUser(body).employeeNo := StoredUser(body)]
      ensures reply == XmlReply(200, XmlOk)
    {
      var employeeNo := Captured(body, "employeeNo");
      var name := Captured(body, "name");
      var endTime := Captured(body, "endTime");
      users := users[employeeNo := DeviceUser(employeeNo, name, endTime)];
      reply := XmlReply(200, XmlOk);
    }

    /**
     * DELETE `UserInfo/Record?employeeNo=…`: 400 with status code 4 when the query parameter is
     * missing or empty; otherwise the key is removed, whether or not it was there, and the reply is OK.
     */
    method DeleteRecord(employeeNo: Option<string>) returns (reply: XmlReply)
      modifies this
      ensures !Truthy(employeeNo) ==> users == old(users) && reply == XmlReply(400, XmlErr(4, "Missing employeeNo"))
      ensures Truthy(employeeNo) ==> users == old(users) - {employeeNo.value} && reply == XmlReply(200, XmlOk)
    {
      if !Truthy(employeeNo) {
        return XmlReply(400, XmlErr(4, "Missing employeeNo"));
      }
      users := users - {employeeNo.value};
      reply := XmlReply(200, XmlOk);
    }

    /** PUT `RemoteControl/door/:doorNo`: always OK, and the store is not touched. */
    method OpenDoor(doorNo: string) returns (reply: XmlReply)
      ensures reply == XmlReply(200, XmlOk)
    {
      reply := XmlReply(200, XmlOk);
    }
  }

  /** A body with no `<tag>` in it at all leaves that field as `?`. */
  lemma MissingFieldDefaults(body: string, tag: string)
    requires '<' !in body
    ensures Captured(body, tag) == "?"
  {
    InertPlain(body, tag);
    InertHasNoMatch(body, tag, 1);
  }

  /** An empty element does not satisfy `[^<]+` either, so it is also stored as `?`. */
  lemma EmptyFieldDefaults(tag: string)
    ensures Captured(Element(tag, ""), tag) == "?"
  {
    EmptyElementNoMatch(tag, 1);
  }

  /**
   * The body the client builds is stored under the escaped employee number, with the escaped name
   * and the end time as sent: the stand-in keeps the entity references instead of decoding them.
   */
  lemma StoresClientPayload(p: H.UserPayload)
    requires H.EscapeXml(p.employeeNo) != [] && H.EscapeXml(p.name) != [] && p.valid.endTime != []
    requires '<' !in p.valid.beginTime && '<' !in p.valid.endTime
    ensures StoredUser(H.BuildUserXml(p)) == DeviceUser(H.EscapeXml(p.employeeNo), H.EscapeXml(p.name), p.valid.endTime)
  {
    var texts := H.UserFieldTexts(p);
    H.FieldTextsHaveNoLt(p);
    H.UserXmlField(texts, 0, 1);
    H.UserXmlField(texts, 1, 1);
    H.UserXmlField(texts, 5, 1);
  }
}
