/** The enumerations and pure transition tables of the coreMQTT state engine
    (core_mqtt.h and the case tables of core_mqtt_state.c). */
module MqttTypes {

  /** uint16_t packet identifiers; 0 (MQTT_PACKET_ID_INVALID) marks a free slot. */
  type PacketId = x: int | 0 <= x < 65536

  datatype QoS = QoS0 | QoS1 | QoS2

  datatype PublishState =
    | StateNull
    | PublishSend
    | PubAckSend
    | PubRecSend
    | PubRelSend
    | PubCompSend
    | PubAckPending
    | PubRecPending
    | PubRelPending
    | PubCompPending
    | PublishDone

  datatype Operation = Send | Receive

  datatype AckType = Puback | Pubrec | Pubrel | Pubcomp

  datatype Status =
    | Success
    | BadParameter
    | NoMemory
    | SendFailed
    | RecvFailed
    | BadResponse
    | IllegalState
    | StateCollision
    | NoDataAvailable
    | NeedMoreBytes

  /** MQTTPubAckInfo_t */
  datatype Record = Record(packetId: PacketId, qos: QoS, state: PublishState)

  /** validateTransitionPublish */
  predicate ValidTransitionPublish(current: PublishState, next: PublishState, op: Operation, qos: QoS)
  {
    match current
    case StateNull => op == Receive && (next == PubAckSend || next == PubRecSend)
    case PublishSend =>
      (match qos
       case QoS1 => next == PubAckPending
       case QoS2 => next == PubRecPending
       case QoS0 => false)
    case PubAckPending => next == PubAckPending
    case PubRecPending => next == PubRecPending
    case _ => false
  }

  /** validateTransitionAck */
  predicate ValidTransitionAck(current: PublishState, next: PublishState)
  {
    match current
    case PubAckSend => next == PublishDone
    case PubAckPending => next == PublishDone
    case PubRecSend => next == PubRelPending
    case PubRelPending => next == PubCompSend || next == PubRelPending
    case PubCompSend => next == PublishDone || next == PubCompSend
    case PubRecPending => next == PubRelSend
    case PubRelSend => next == PubCompPending
    case PubCompPending => next == PublishDone || next == PubCompPending
    case _ => false
  }

  /** isPublishOutgoing */
  predicate IsPublishOutgoing(ack: AckType, op: Operation)
  {
    match ack
    case Pubrel => op == Send
    case _ => op == Receive
  }

  /** MQTT_CalculateStateAck */
  function CalculateStateAck(ack: AckType, op: Operation, qos: QoS): PublishState
  {
    if qos != (if ack == Puback then QoS1 else QoS2) then StateNull
    else match ack
      case Puback => PublishDone
      case Pubrec => if op == Send then PubRelPending else PubRelSend
      case Pubrel => if op == Send then PubCompPending else PubCompSend
      case Pubcomp => PublishDone
  }

  /** MQTT_CalculateStatePublish */
  function CalculateStatePublish(op: Operation, qos: QoS): PublishState
  {
    match qos
    case QoS0 => PublishDone
    case QoS1 => if op == Send then PubAckPending else PubAckSend
    case QoS2 => if op == Send then PubRecPending else PubRecSend
  }

  /** The states an outgoing record of a given QoS may be in. */
  predicate OutgoingState(qos: QoS, state: PublishState)
  {
    match qos
    case QoS0 => false
    case QoS1 => state == PublishSend || state == PubAckPending
    case QoS2 => state in {PublishSend, PubRecPending, PubRelSend, PubCompPending}
  }

  /** The states an incoming record of a given QoS may be in. */
  predicate IncomingState(qos: QoS, state: PublishState)
  {
    match qos
    case QoS0 => false
    case QoS1 => state == PubAckSend
    case QoS2 => state in {PubRecSend, PubRelPending, PubCompSend}
  }
}
