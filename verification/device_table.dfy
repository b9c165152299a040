/**
 * The register map of the Voegtlin GSC flow controller: the `GSC::` parameters
 * and the `Params` table keyed by register address.
 */
module DeviceTable {
  import opened Bytes
  import opened Protocol

  const MeasGasFlow := ModbusParam(0x0000, F32, "Measured Gas Flow Rate")
  const MeasTemperature := ModbusParam(0x0002, F32, "Measured Temperature")
  const Totaliser1 := ModbusParam(0x0004, F32, "Total Gas Flow")
  const SetGasFlow := ModbusParam(0x0006, F32, "Setpoint Gas Flow Rate")
  const Alarms := ModbusParam(0x000C, U16, "Alarm flags")
  const HardwareErrors := ModbusParam(0x000D, U16, "Hardware error flags")
  const ControlFunction := ModbusParam(0x000E, U16, "Control mode flags")
  const SerialNum := ModbusParam(0x001E, U32, "Device Serial Number")
  const HardwareVersion := ModbusParam(0x0020, U16, "Hardware Version")
  const SoftwareVersion := ModbusParam(0x0021, U16, "Software Version")
  const TypeCode1 := ModbusParam(0x0023, S8, "Type Code Part 1")
  const SoftReset := ModbusParam(0x0034, U16, "Soft Reset")
  const TypeCode2 := ModbusParam(0x1004, S8, "Type Code Part 2")
  const MeasPointName := ModbusParam(0x5000, S50, "Measurement point name")
  const FluidNameLong := ModbusParam(0x6022, S50, "Fluid Name (long)")
  const FluidName := ModbusParam(0x6042, S8, "Fluid Name")
  const MeasUnit := ModbusParam(0x6046, S8, "Measuring Unit")
  const Totaliser2 := ModbusParam(0x6382, F32, "Total Gas Flow (all time)")
  const TotaliserUnit := ModbusParam(0x6386, S8, "Totaliser Unit")

  /** The parameter table, as listed in the device header and in the example program. */
  const Params: map<u16, ModbusParam> := map[
    0x0000 := MeasGasFlow, 0x0002 := MeasTemperature,
    0x0004 := Totaliser1, 0x0006 := SetGasFlow,
    0x000C := Alarms, 0x000D := HardwareErrors,
    0x000E := ControlFunction, 0x001E := SerialNum,
    0x0020 := HardwareVersion, 0x0021 := SoftwareVersion,
    0x0023 := TypeCode1, 0x0034 := SoftReset,
    0x1004 := TypeCode2, 0x5000 := MeasPointName,
    0x6022 := FluidNameLong, 0x6042 := FluidName,
    0x6046 := MeasUnit, 0x6382 := Totaliser2,
    0x6386 := TotaliserUnit]

  /** Every entry is filed under its own register address. */
  predicate KeysMatch(m: map<u16, ModbusParam>)
  {
    forall a :: a in m ==> m[a].addr == a
  }

  /** The table keeps its invariant: each key is the address of the parameter it maps to. */
  lemma ParamsKeysMatch()
    ensures KeysMatch(Params)
  {
  }

  /** The read request for the gas flow setpoint: slave 247, function 0x03, start 0x0006, two registers. */
  lemma SetGasFlowReadRequest()
    ensures ReadRequest(SetGasFlow) == Request(0xF7, 0x03, 0x0006, 2, [])
  {
  }
}
