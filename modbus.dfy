/** The role router of `modbus.c`: one static role (master or slave), one mode
    (RTU or TCP) and the UART, which decide which engine a call reaches. The
    router's `ModbusMode` and the engines' own mode enums are the one `Mode`
    datatype here, so the RTU/TCP mapping of `modbus_init_master` and
    `modbus_init_slave` is the identity. */
module ModbusRouter {
  import opened Bytes
  import opened ModbusTypes
  import opened ModbusMaster
  import opened ModbusSlave

  /** `s_role`, `s_mode`, `s_huart`, and the state of the two engines. */
  class Router {
    var role: Role
    var mode: Mode
    var uart: Uart
    const master: Master
    const slave: Slave

    ghost predicate Valid()
      reads this, slave`id, slave`coils, slave`discreteInputs, slave`holding, slave`input
    {
      slave.Valid()
    }

    /** The static initialisers: master role, RTU, no UART. */
    constructor ()
      ensures Valid() && role == Master && mode == Rtu && uart == NoUart
      ensures fresh(master) && fresh(slave)
    {
      role := Master;
      mode := Rtu;
      uart := NoUart;
      master := new Master();
      slave := new Slave();
    }

    /** `modbus_init_master`: the master role, and the master engine on the same
        UART and mode. */
    method InitMaster(huart: Uart, m: Mode)
      modifies this`role, this`mode, this`uart, master`uart, master`mode
      ensures role == Master && mode == m && uart == huart
      ensures master.uart == huart && master.mode == m
    {
      role := Master;
      mode := m;
      uart := huart;
      master.InitEx(huart, m);
    }

    /** `modbus_init_slave`: the slave role, and the slave engine on the same UART
        and mode with every field of the configuration as given. */
    method InitSlave(huart: Uart, cfg: Config, m: Mode)
      requires ConfigFits(cfg)
      modifies this`role, this`mode, this`uart
      modifies slave`uart, slave`id, slave`coils, slave`discreteInputs, slave`holding, slave`input, slave`mode
      ensures Valid() && role == Slave && mode == m && uart == huart
      ensures slave.uart == huart && slave.mode == m
      ensures Config(slave.id, slave.coils, slave.discreteInputs, slave.holding, slave.input) == cfg
    {
      role := Slave;
      mode := m;
      uart := huart;
      slave.InitEx(huart, cfg, m);
    }

    /** `modbus_send_request`: refused outside the master role, otherwise what the
        master engine does. */
    method SendRequest(req: Request, txOk: bool) returns (ok: bool)
      requires WriteDataFits(req) && FrameFits(master.mode, req)
      modifies master`tidCounter, master`trace
      ensures role != Master ==> !ok && master.tidCounter == old(master.tidCounter) && master.trace == old(master.trace)
      ensures role == Master ==>
        master.tidCounter ==
          if master.uart != NoUart && master.mode == Tcp && req.transactionId == 0
          then old(master.tidCounter) + 1 else old(master.tidCounter)
      ensures role == Master && master.uart == NoUart ==> !ok && master.trace == old(master.trace)
      ensures role == Master && master.uart != NoUart && !Supported(req.fc) ==> !ok && master.trace == old(master.trace)
      ensures role == Master && master.uart != NoUart && Supported(req.fc) ==>
        ok == txOk &&
        master.trace == old(master.trace) +
          [DeTx, Transmit(RequestFrame(master.mode, TidUsed(req, old(master.tidCounter)), req)), DeRx]
    {
      if role != Master {
        return false;
      }
      ok := master.SendRequest(req, txOk);
    }

    /** `modbus_handle_response`: ignored outside the master role. */
    method HandleResponse(data: seq<bv8>, len: nat)
      requires len <= |data| && len < 0x1_0000
      modifies master`trace
      ensures master.trace == old(master.trace) +
        if role == Master && ResponseAccepted(master.mode, data, len) then [ResponseReceived(data[..len])] else []
    {
      if role != Master {
        return;
      }
      master.HandleResponse(data, len);
    }

    /** `modbus_handle_frame`: ignored outside the slave role. */
    method HandleFrame(buf: seq<bv8>, len: nat, stale: seq<bv8>)
      requires Valid() && |buf| == MaxFrame && len <= MaxFrame && |stale| == MaxFrame
      modifies slave`trace, slave.coils, slave.holding
      ensures Valid()
      ensures role != Slave ==> slave.Maps() == old(slave.Maps()) && slave.trace == old(slave.trace)
      ensures role == Slave ==>
        var o := Handle(slave.mode, old(slave.Maps()), slave.id, buf, len, stale);
        slave.Maps() == o.tables && slave.trace == old(slave.trace) + o.events
    {
      if role != Slave {
        return;
      }
      slave.HandleFrame(buf, len, stale);
    }

    /** `modbus_get_role`. */
    function GetRole(): (r: Role)
      reads this
      ensures r == role
    {
      role
    }

    /** `modbus_get_mode`: the router's own mode, whichever engine was set up. */
    function GetMode(): (m: Mode)
      reads this
      ensures m == mode
    {
      mode
    }
  }
}
