/** The fixed-size request and response structures exchanged by client and server. */
module Messages {
  import opened CStrings

  /** Receive slots of one connection, and of the datagram server, which is also the most
      clients it accepts. */
  const REQUEST_BACKLOG := 5

  const MAX_CLIENTS := 1024

  datatype Method = UNK | SET | GET | DEL | PING | DUMP | RST | EXIT | SETOPT

  datatype Code = OK | KEY_ERROR | PARSING_ERROR | STORE_ERROR | SETOPT_ERROR | UNK_ERROR

  /** `key` and `msg` are the used parts of the 64- and 256-byte fields: their lengths are
      key_len and msg_len. */
  datatype Request = Request(clientId: int, op: Method, key: CString, msg: seq<Char>)

  datatype Response = Response(code: Code, msg: seq<Char>)

  /** A response after bzero. */
  const CLEARED := Response(OK, [])

  /** What the clients build: key_len is the string length of the key, and both fit. */
  predicate WellFormed(r: Request) {
    IsKey(r.key) && |r.msg| <= MSG_SIZE
  }
}
