/**
 The request codes of the protocol (hqery.h) and what each command is an answer to (session.cpp).
 */
module Commands {

  const COMMAND: int := 1

  const REQ_LOG: int := 20
  const SEND_MSG: int := 80
  const REQUEST_CONNECTION: int := 81
  const REQUEST_INVITE: int := 82
  const REQUEST_CREATE_TABLE: int := 83

  const GET_MSG: int := 70
  const GET_IVT: int := 71
  const GET_CONNECTION: int := 72
  const GET_FRIEND_LIST: int := 73

  /** `command_number_to_check_list_index` */
  function CheckListIndex(command: int): int {
    if command == GET_CONNECTION then 2
    else if command == GET_IVT then 1
    else if command == GET_MSG then 0
    else if command == GET_FRIEND_LIST then 9
    else -1
  }
}
