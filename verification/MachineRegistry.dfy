/**
 The machines MaRS knows (`Mars` in mars.py): a table of `Machine` objects kept in step with the
 DUTs of a database file that is reloaded whenever it changes.
 */
module MachineRegistry {
  import opened Common
  import opened MachineNames

  /** An entry of the database; reloading the file makes new objects. */
  class ConfigDut {
    const mac: Mac
    var dut: Dut

    constructor (mac: Mac, dut: Dut)
      ensures this.mac == mac && this.dut == dut
    {
      this.mac, this.dut := mac, dut;
    }
  }

  /** A machine and its executor thread. */
  class Machine {
    var dbDut: ConfigDut
    var stops: nat  // how many times the executor was told to stop

    constructor (dbDut: ConfigDut)
      ensures this.dbDut == dbDut && stops == 0
    {
      this.dbDut, stops := dbDut, 0;
    }

    method UpdateConfig(dbDut: ConfigDut)
      modifies this`dbDut
      ensures this.dbDut == dbDut
    {
      this.dbDut := dbDut;
    }

    method Remove()
      modifies this`stops
      ensures stops == old(stops) + 1
    {
      stops := stops + 1;
    }
  }

  ghost predicate WellKeyed(db: map<Mac, ConfigDut>) {
    forall m :: m in db ==> db[m].mac == m
  }

  /** The fields of a request to add or update a machine; those without a default are needed for a new one. */
  datatype Fields = Fields(baseName: Option<string>, tags: Option<seq<string>>, ipAddress: Option<string>,
                           firstSeen: Option<int>)

  datatype Operation =
    | Sync(file: map<Mac, ConfigDut>)
    | AddOrUpdate(mac: Mac, fields: Fields, now: int)

  class Mars {
    const validAddress: string -> bool  // what `IPv4Address` accepts
    var machines: map<Mac, Machine>
    var db: map<Mac, ConfigDut>
    ghost var made: set<Machine>  // every machine there ever was: all that an operation left in the table

    /** Machines are filed under their own MAC, hence none twice. */
    ghost predicate Valid()
      reads this, machines.Values
    {
      WellKeyed(db) && forall m :: m in machines ==> machines[m].dbDut.mac == m
    }

    /** Known machines and database entries have the same MACs, and each machine uses the current entry. */
    ghost predicate InStep()
      reads this, machines.Values
    {
      && machines.Keys == db.Keys
      && forall m :: m in machines ==> m in db && machines[m].dbDut == db[m]
    }

    /** Every machine there ever was has been stopped exactly once if it is gone, and never otherwise. */
    ghost predicate Accounted()
      reads this, made
    {
      && machines.Values <= made
      && forall x :: x in made ==> x.stops == if x in machines.Values then 0 else 1
    }

    constructor (validAddress: string -> bool)
      ensures Valid() && InStep() && Accounted() && made == {}
      ensures machines == map[] && db == map[] && this.validAddress == validAddress
    {
      this.validAddress := validAddress;
      machines, db, made := map[], map[], {};
    }

    method MachineUpdateOrCreate(d: ConfigDut) returns (machine: Machine)
      requires Valid()
      modifies this
      modifies if d.mac in machines then {machines[d.mac]} else {}
      ensures Valid() && db == old(db)[d.mac := d] && made == old(made)
      ensures machines == old(machines)[d.mac := machine] && machine.dbDut == d
      ensures d.mac in old(machines) ==>
                machine == old(machines)[d.mac] && machine.stops == old(machines[d.mac].stops)
      ensures d.mac !in old(machines) ==> fresh(machine) && machine.stops == 0
    {
      if d.mac in machines {
        machine := machines[d.mac];
        machine.UpdateConfig(d);
        assert machines == machines[d.mac := machine];
      } else {
        machine := new Machine(d);
        machines := machines[d.mac := machine];
      }
      db := db[d.mac := d];
    }

    /** The reload: the file's entries replace the database, machines follow. */
    method SyncMachines(file: map<Mac, ConfigDut>)
      requires Valid() && WellKeyed(file)
      modifies this, machines.Values
      ensures Valid() && InStep() && db == file && made == old(made)
      ensures forall m :: m in old(machines) && m in file ==>
                machines[m] == old(machines)[m] && machines[m].stops == old(machines[m].stops)
      ensures forall m :: m in file && m !in old(machines) ==> fresh(machines[m]) && machines[m].stops == 0
      ensures forall m :: m in old(machines) && m !in file ==> old(machines)[m].stops == old(machines[m].stops) + 1
    {
      db := file;
      var known := machines.Keys;
      LoadMachines();
      RemoveMachines(known - file.Keys);
    }

    /** Gives one entry its machine and leaves the others alone. */
    method LoadMachine(mac: Mac)
      requires Valid() && mac in db
      modifies this, if mac in machines then {machines[mac]} else {}
      ensures Valid() && db == old(db) && made == old(made) && mac in machines
      ensures machines == old(machines)[mac := machines[mac]]
      ensures machines[mac].dbDut == db[mac]
      ensures forall m :: m in old(machines) ==>
                machines[m] == old(machines)[m] && machines[m].stops == old(machines[m].stops)
      ensures forall m :: m in old(machines) && m != mac ==> machines[m].dbDut == old(machines[m].dbDut)
      ensures mac !in old(machines) ==> fresh(machines[mac]) && machines[mac].stops == 0
    {
      var machine := MachineUpdateOrCreate(db[mac]);
      assert db == old(db);
    }

    /** Lines 390-396: give every entry its machine. */
    method LoadMachines()
      requires Valid()
      modifies this, machines.Values
      ensures Valid() && db == old(db) && made == old(made) && machines.Keys == old(machines).Keys + db.Keys
      ensures forall m :: m in old(machines) ==>
                machines[m] == old(machines)[m] && machines[m].stops == old(machines[m].stops)
      ensures forall m :: m in machines && m !in old(machines) ==> fresh(machines[m]) && machines[m].stops == 0
      ensures forall m :: m in db ==> machines[m].dbDut == db[m]
    {
      var todo := db.Keys;
      while todo != {}
        invariant Valid() && db == old(db) && made == old(made) && todo <= db.Keys
        invariant forall m :: m in machines <==> m in old(machines) || (m in db && m !in todo)
        invariant forall m :: m in old(machines) ==>
                    machines[m] == old(machines)[m] && machines[m].stops == old(machines[m].stops)
        invariant forall m :: m in machines && m !in old(machines) ==> fresh(machines[m]) && machines[m].stops == 0
        invariant forall m :: m in db && m !in todo ==> machines[m].dbDut == db[m]
        decreases todo
      {
        var mac :| mac in todo;
        LoadMachine(mac);
        todo := todo - {mac};
      }
    }

    /** Lines 399-401: stop and forget the machines that the file no longer lists. */
    method RemoveMachines(gone: set<Mac>)
      requires Valid() && gone <= machines.Keys
      modifies this`machines, set m | m in gone :: machines[m]
      ensures Valid() && machines == old(machines) - gone
      ensures forall m :: m in gone ==> old(machines)[m].stops == old(machines[m].stops) + 1
    {
      var left := gone;
      while left != {}
        invariant left <= gone && machines == old(machines) - (gone - left)
        invariant forall m :: m in old(machines) ==> old(machines)[m].dbDut == old(machines[m].dbDut)
        invariant forall m :: m in gone ==>
                    old(machines)[m].stops == old(machines[m].stops) + if m in left then 0 else 1
        decreases left
      {
        var id :| id in left;
        machines[id].Remove();
        machines := machines - {id};
        left := left - {id};
      }
    }

    /** Registers or updates one machine, unless a field is missing or its address is not one. */
    method AddOrUpdateMachine(mac: Mac, fields: Fields, now: int) returns (r: Result<Machine, string>)
      requires Valid()
      modifies this, machines.Values
      ensures Valid()
      ensures r.Err? <==> (mac !in old(db) &&
                           (fields.baseName.None? || fields.tags.None? || fields.ipAddress.None?)) ||
                          !validAddress(NewAddress(if mac in old(db) then Some(old(db[mac].dut)) else None, fields))
      ensures r.Err? ==> db == old(db) && machines == old(machines)
      ensures r.Ok? ==>
                && db.Keys == old(db.Keys) + {mac} && machines == old(machines)[mac := r.value]
                && (forall m :: m in old(db) && m != mac ==> db[m] == old(db)[m])
                && Overrides(if mac in old(db) then Some(old(db[mac].dut)) else None, fields, now, db[mac].dut)
                && (mac in old(machines) ==> r.value == old(machines)[mac])
                && (mac !in old(machines) ==> fresh(r.value) && r.value.stops == 0)
      ensures forall m :: m in old(machines) ==> old(machines)[m].stops == old(machines[m].stops)
      ensures made == old(made)
      ensures old(InStep()) ==> InStep()
    {
      if mac !in db && Incomplete(fields) {
        return Err("missing field");
      }
      var dut := Merged(if mac in db then Some(db[mac].dut) else None, fields, now);
      if !validAddress(dut.ipAddress) {
        return Err("invalid IP address");
      }
      var entry := new ConfigDut(mac, dut);
      var machine := MachineUpdateOrCreate(entry);
      r := Ok(machine);
    }

    /** One operation: a surviving MAC keeps its machine, and a machine is stopped exactly when it goes. */
    method Perform(op: Operation)
      requires Valid() && InStep() && (op.Sync? ==> WellKeyed(op.file))
      modifies this, machines.Values
      ensures Valid() && InStep() && made == old(made)
      ensures forall m :: m in machines ==>
                if m in old(machines) then machines[m] == old(machines)[m]
                else fresh(machines[m]) && machines[m].stops == 0
      ensures forall m :: m in old(machines) ==>
                old(machines)[m].stops == old(machines[m].stops) + if m in machines then 0 else 1
    {
      match op
      case Sync(file) =>
        SyncMachines(file);
      case AddOrUpdate(mac, fields, now) =>
        var _ := AddOrUpdateMachine(mac, fields, now);
    }

    /** The same, and the account of all machines. */
    method Operate(op: Operation)
      requires Valid() && InStep() && (op.Sync? ==> WellKeyed(op.file))
      modifies this, machines.Values
      ensures Valid() && InStep()
      ensures forall m :: m in machines ==>
                if m in old(machines) then machines[m] == old(machines)[m] else fresh(machines[m])
      ensures forall m :: m in old(machines) ==>
                old(machines)[m].stops == old(machines[m].stops) + if m in machines then 0 else 1
      ensures made == old(made) + machines.Values && (old(Accounted()) ==> Accounted())
    {
      Perform(op);
      made := made + machines.Values;
    }

    /** Is this the object that the MAC was registered with? */
    predicate Keeps(m: Mac, machine: Machine)
      reads this
    {
      m in machines && machines[m] == machine
    }

    /**
     Any sequence of operations: table and database stay in step, and every machine there ever was is
     accounted for, even if its MAC came back under another object. Those that were known at first are
     accounted for in any case.
     */
    method OperateAll(ops: seq<Operation>)
      requires Valid() && InStep()
      requires forall i :: 0 <= i < |ops| && ops[i].Sync? ==> WellKeyed(ops[i].file)
      modifies this, machines.Values
      ensures Valid() && InStep()
      ensures old(Accounted()) ==> Accounted() && old(made) <= made
      ensures forall m :: m in old(machines) ==>
                old(machines)[m].stops == old(machines[m].stops) + if Keeps(m, old(machines)[m]) then 0 else 1
    {
      for i := 0 to |ops|
        invariant Valid() && InStep()
        invariant old(Accounted()) ==> Accounted() && old(made) <= made
        invariant forall m :: m in machines ==>
                    fresh(machines[m]) || (m in old(machines) && machines[m] == old(machines)[m])
        invariant forall m :: m in old(machines) ==>
                    old(machines)[m].stops == old(machines[m].stops) + if Keeps(m, old(machines)[m]) then 0 else 1
      {
        Operate(ops[i]);
      }
    }
  }

  predicate Incomplete(fields: Fields) {
    fields.baseName.None? || fields.tags.None? || fields.ipAddress.None?
  }

  function GetOr<T>(field: Option<T>, otherwise: T): T {
    if field.Some? then field.value else otherwise
  }

  /** The address that the machine would have; one that is missing is not an address. */
  function NewAddress(current: Option<Dut>, fields: Fields): string {
    GetOr(fields.ipAddress, if current.Some? then current.value.ipAddress else "")
  }

  /** The current fields overridden by the given ones; a new DUT is first seen now unless told otherwise. */
  function Merged(current: Option<Dut>, fields: Fields, now: int): Dut
    requires current.Some? || !Incomplete(fields)
  {
    if current.Some? then
      Dut(GetOr(fields.baseName, current.value.baseName), GetOr(fields.tags, current.value.tags),
          GetOr(fields.ipAddress, current.value.ipAddress), GetOr(fields.firstSeen, current.value.firstSeen))
    else
      Dut(fields.baseName.value, fields.tags.value, fields.ipAddress.value, GetOr(fields.firstSeen, now))
  }

  /** Every field is the given one, or else the current one; only a new DUT may be first seen now. */
  ghost predicate Overrides(current: Option<Dut>, fields: Fields, now: int, d: Dut) {
    && (if fields.baseName.Some? then fields.baseName == Some(d.baseName)
        else current.Some? && d.baseName == current.value.baseName)
    && (if fields.tags.Some? then fields.tags == Some(d.tags) else current.Some? && d.tags == current.value.tags)
    && (if fields.ipAddress.Some? then fields.ipAddress == Some(d.ipAddress)
        else current.Some? && d.ipAddress == current.value.ipAddress)
    && (if fields.firstSeen.Some? then fields.firstSeen == Some(d.firstSeen)
        else d.firstSeen == if current.Some? then current.value.firstSeen else now)
  }
}
